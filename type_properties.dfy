/**
 * What the conversions of module Types promise: when a host value converts,
 * and that converting out and back in reproduces the value.
 */
module TypeProperties {
  import opened Wrappers
  import opened Utf8
  import opened Types
  import KeyOrder

  // ---------------------------------------------------------------------
  // When conversion succeeds

  /** A host value every extraction of which succeeds: no unsupported
      object and no non-str dict key at any depth. */
  ghost predicate Convertible(ops: FloatOps, v: PyValue) {
    match v
    case PyInt(i) => InI64(i) || ops.toF64(i).Some?
    case PyDict(items) => forall entry | entry in items :: entry.0.PyStr? && Convertible(ops, entry.1)
    case PyList(xs) => forall x | x in xs :: Convertible(ops, x)
    case PyOther(_) => false
    case _ => true
  }

  ghost predicate EntryConvertible(ops: FloatOps, d: PyValue, k: int)
    requires d.PyDict? && 0 <= k < |d.items|
  {
    d.items[k].0.PyStr? && Convertible(ops, d.items[k].1)
  }

  lemma ConvertibleDict(ops: FloatOps, v: PyValue)
    requires v.PyDict?
    ensures Convertible(ops, v) <==> forall k :: 0 <= k < |v.items| ==> EntryConvertible(ops, v, k)
  {
    if forall k :: 0 <= k < |v.items| ==> EntryConvertible(ops, v, k) {
      forall entry | entry in v.items ensures entry.0.PyStr? && Convertible(ops, entry.1) {
        var k :| 0 <= k < |v.items| && v.items[k] == entry;
        assert EntryConvertible(ops, v, k);
      }
    }
  }

  lemma {:induction false} DictToJsonSucceeds(ops: FloatOps, d: PyValue, i: nat, acc: map<string, JsonValue>)
    requires d.PyDict? && i <= |d.items|
    ensures DictToJson(ops, d, i, acc).Success? <==>
            forall k :: i <= k < |d.items| ==> EntryConvertible(ops, d, k)
    decreases d, 0, |d.items| - i
  {
    if i < |d.items| {
      var entry := d.items[i];
      assert entry in d.items;
      PyToJsonSucceeds(ops, entry.1);
      if EntryConvertible(ops, d, i) {
        DictToJsonSucceeds(ops, d, i + 1, acc[entry.0.s := PyToJson(ops, entry.1).value]);
      }
    }
  }

  lemma {:induction false} ListToJsonSucceeds(ops: FloatOps, l: PyValue, i: nat, acc: seq<JsonValue>)
    requires l.PyList? && i <= |l.elems|
    ensures ListToJson(ops, l, i, acc).Success? <==>
            forall k :: i <= k < |l.elems| ==> Convertible(ops, l.elems[k])
    decreases l, 0, |l.elems| - i
  {
    if i < |l.elems| {
      PyToJsonSucceeds(ops, l.elems[i]);
      if PyToJson(ops, l.elems[i]).Success? {
        ListToJsonSucceeds(ops, l, i + 1, acc + [PyToJson(ops, l.elems[i]).value]);
      }
    }
  }

  /** `py_to_json_value` returns a value exactly for the convertible host
      values, and a TypeError otherwise. */
  lemma {:induction false} PyToJsonSucceeds(ops: FloatOps, v: PyValue)
    ensures PyToJson(ops, v).Success? <==> Convertible(ops, v)
    decreases v, 1
  {
    match v
    case PyDict(items) =>
      DictToJsonSucceeds(ops, v, 0, map[]);
      ConvertibleDict(ops, v);
    case PyList(_) => ListToJsonSucceeds(ops, v, 0, []);
    case _ =>
  }

  /** The JSON text of a converted host value is not nested too deep for
      the parser to read it back. */
  ghost predicate ParsesBack(ops: FloatOps, v: PyValue) {
    PyToJson(ops, v).Success? ==> WithinDepth(PyToJson(ops, v).value, RecursionLimit - 1)
  }

  /** A host event that `py_to_vrl_value` accepts: as Convertible, except
      that a float at the top must render to JSON text that parses, and
      that a dict or list must not nest as deep as the parser's limit. */
  ghost predicate EventConvertible(ops: FloatOps, v: PyValue) {
    match v
    case PyInt(i) =>
      InI64(i) || (ops.toF64(i).Some? && ops.displayReparse(ops.toF64(i).value).Success?)
    case PyFloat(f) => ops.displayReparse(f).Success?
    case _ => Convertible(ops, v) && ParsesBack(ops, v)
  }

  /** `None` wrapped in n single-item lists. */
  function NestedList(n: nat): (v: PyValue)
    ensures n == 0 <==> v.PyNone?
    ensures n > 0 ==> v.PyList? && |v.elems| == 1
  {
    if n == 0 then PyNone else PyList([NestedList(n - 1)])
  }

  /** Its JSON: null wrapped in n single-item arrays. */
  function NestedArray(n: nat): (j: JsonValue)
    ensures n == 0 <==> j.JNull?
    ensures n > 0 ==> j.JArray? && |j.elems| == 1
  {
    if n == 0 then JNull else JArray([NestedArray(n - 1)])
  }

  lemma {:induction false} NestedListJson(ops: FloatOps, n: nat)
    ensures PyToJson(ops, NestedList(n)) == Success(NestedArray(n))
  {
    if n > 0 {
      NestedListJson(ops, n - 1);
      var l := NestedList(n);
      assert l.elems[0] == NestedList(n - 1);
      assert ListToJson(ops, l, 1, [NestedArray(n - 1)]) == Success([NestedArray(n - 1)]);
      assert [] + [NestedArray(n - 1)] == [NestedArray(n - 1)];
    }
  }

  lemma {:induction false} NestedArrayDepth(n: nat, d: nat)
    ensures WithinDepth(NestedArray(n), d) <==> n <= d
  {
    if n > 0 && d > 0 {
      NestedArrayDepth(n - 1, d - 1);
      var inner := NestedArray(n - 1);
      assert NestedArray(n).elems == [inner];
      assert NestedArray(n) == JArray([inner]);
      assert WithinDepth(JArray([inner]), d) <==> WithinDepth(inner, d - 1) by {
        assert inner in [inner];
        assert forall y | y in [inner] :: y == inner;
      }
    }
  }

  /** The parser's depth limit, on the smallest example: a list nested n
      deep converts exactly when n is below 128, and otherwise fails with
      the parser's ValueError. */
  lemma NestingLimit(ops: FloatOps, n: nat)
    ensures PyToVrl(ops, NestedList(n)).Success? <==> n < RecursionLimit
    ensures n >= RecursionLimit ==> PyToVrl(ops, NestedList(n)) == Failure(ValueError(RecursionLimitExceeded))
  {
    NestedListJson(ops, n);
    NestedArrayDepth(n, RecursionLimit - 1);
    if n > 0 {
      var l := NestedList(n);
      assert ListToJson(ops, l, 0, []) == Success(NestedArray(n).elems) by {
        NestedListJson(ops, n - 1);
        assert ListToJson(ops, l, 1, [NestedArray(n - 1)]) == Success([NestedArray(n - 1)]);
      }
    }
  }

  /** `py_to_vrl_value` fails exactly on the events that are not convertible;
      a failure is a TypeError, or a ValueError from an unparseable float or
      from nesting that reaches the parser's limit. An event other than a
      number that is not convertible at all (a non-str key or an unsupported
      object at any depth) always fails with a TypeError. */
  lemma PyToVrlSucceeds(ops: FloatOps, v: PyValue)
    ensures PyToVrl(ops, v).Success? <==> EventConvertible(ops, v)
    ensures PyToVrl(ops, v).Failure? ==>
              PyToVrl(ops, v).error.TypeError? || PyToVrl(ops, v).error.ValueError?
    ensures !v.PyInt? && !v.PyFloat? && !Convertible(ops, v) ==>
              PyToVrl(ops, v).Failure? && PyToVrl(ops, v).error.TypeError?
    ensures v.PyOther? ==> PyToVrl(ops, v) == Failure(TypeError(UnsupportedEvent))
    ensures (v.PyDict? || v.PyList?) && Convertible(ops, v) && !ParsesBack(ops, v) ==>
              PyToVrl(ops, v) == Failure(ValueError(RecursionLimitExceeded))
  {
    match v
    case PyDict(items) =>
      DictToJsonSucceeds(ops, v, 0, map[]);
      ConvertibleDict(ops, v);
    case PyList(_) => ListToJsonSucceeds(ops, v, 0, []);
    case _ =>
  }

  /** A non-str key at entry k, after entries that all convert, is the error. */
  lemma {:induction false} FirstBadKeyIsTheError(ops: FloatOps, d: PyValue, i: nat, k: nat, acc: map<string, JsonValue>)
    requires d.PyDict? && i <= k < |d.items|
    requires forall j :: i <= j < k ==> EntryConvertible(ops, d, j)
    requires !d.items[k].0.PyStr?
    ensures DictToJson(ops, d, i, acc) == Failure(KeyNotStr(d.items[k].0))
    decreases k - i
  {
    if i < k {
      var entry := d.items[i];
      assert EntryConvertible(ops, d, i);
      assert entry in d.items;
      PyToJsonSucceeds(ops, entry.1);
      FirstBadKeyIsTheError(ops, d, i + 1, k, acc[entry.0.s := PyToJson(ops, entry.1).value]);
    }
  }

  // ---------------------------------------------------------------------
  // The values that survive a round trip

  predicate DistinctKeys(items: seq<(PyValue, PyValue)>) {
    forall a, b :: 0 <= a < b < |items| ==> items[a].0 != items[b].0
  }

  /** Host values built from None, bool, 64-bit int, finite float, str,
      list and dict with distinct str keys. */
  ghost predicate JsonSafe(v: PyValue) {
    match v
    case PyInt(i) => InI64(i)
    case PyFloat(f) => IsFinite(f)
    case PyDict(items) => DistinctKeys(items) && forall entry | entry in items :: entry.0.PyStr? && JsonSafe(entry.1)
    case PyList(xs) => forall x | x in xs :: JsonSafe(x)
    case PyOther(_) => false
    case _ => true
  }

  ghost predicate EntrySafe(d: PyValue, k: int)
    requires d.PyDict? && 0 <= k < |d.items|
  {
    d.items[k].0.PyStr? && JsonSafe(d.items[k].1)
  }

  /** Every dict's entries are in strictly increasing key order, the order
      in which a VRL object yields them. */
  ghost predicate KeyOrdered(v: PyValue) {
    match v
    case PyDict(items) =>
      KeyOrder.StrictlySorted(DictKeys(items)) && forall entry | entry in items :: KeyOrdered(entry.1)
    case PyList(xs) => forall x | x in xs :: KeyOrdered(x)
    case _ => true
  }

  ghost predicate EntryKeyOrdered(d: PyValue, k: int)
    requires d.PyDict? && 0 <= k < |d.items|
  {
    KeyOrdered(d.items[k].1)
  }

  /** VRL values that a host value can carry exactly: no timestamp or regex,
      bytes that are well-formed UTF-8, 64-bit integers, finite floats. */
  ghost predicate Representable(x: VrlValue) {
    match x
    case Integer(i) => InI64(i)
    case Float(f) => IsFinite(f)
    case Bytes(b) => WellFormed(b)
    case Timestamp(_) => false
    case Regex(_) => false
    case Array(xs) => forall y | y in xs :: Representable(y)
    case Object(m) => forall key :: key in m ==> Representable(m[key])
    case _ => true
  }

  /** The str keys of the entries from index i on. */
  ghost function KeysFrom(items: seq<(PyValue, PyValue)>, i: nat): set<string> {
    set k | i <= k < |items| && items[k].0.PyStr? :: items[k].0.s
  }

  /** The dict loop over entries with distinct str keys that all convert:
      each key ends up holding its own converted value. */
  lemma {:induction false} DictToJsonAll(ops: FloatOps, d: PyValue, i: nat, acc: map<string, JsonValue>)
    requires d.PyDict? && i <= |d.items|
    requires DistinctKeys(d.items)
    requires forall k :: i <= k < |d.items| ==> d.items[k].0.PyStr? && PyToJson(ops, d.items[k].1).Success?
    ensures DictToJson(ops, d, i, acc).Success?
    ensures DictToJson(ops, d, i, acc).value.Keys == acc.Keys + KeysFrom(d.items, i)
    ensures forall k :: i <= k < |d.items| ==>
              DictToJson(ops, d, i, acc).value[d.items[k].0.s] == PyToJson(ops, d.items[k].1).value
    ensures forall key :: key in acc && key !in KeysFrom(d.items, i) ==>
              DictToJson(ops, d, i, acc).value[key] == acc[key]
    decreases |d.items| - i
  {
    if i < |d.items| {
      var entry := d.items[i];
      var acc' := acc[entry.0.s := PyToJson(ops, entry.1).value];
      DictToJsonAll(ops, d, i + 1, acc');
      assert KeysFrom(d.items, i) == {entry.0.s} + KeysFrom(d.items, i + 1);
      assert entry.0.s !in KeysFrom(d.items, i + 1);
    } else {
      assert KeysFrom(d.items, i) == {};
    }
  }

  /** The list loop over items that all convert: item by item. */
  lemma {:induction false} ListToJsonAll(ops: FloatOps, l: PyValue, i: nat, acc: seq<JsonValue>)
    requires l.PyList? && i <= |l.elems|
    requires forall k :: i <= k < |l.elems| ==> PyToJson(ops, l.elems[k]).Success?
    ensures ListToJson(ops, l, i, acc).Success?
    ensures ListToJson(ops, l, i, acc).value[..|acc|] == acc
    ensures forall k :: i <= k < |l.elems| ==>
              ListToJson(ops, l, i, acc).value[|acc| + k - i] == PyToJson(ops, l.elems[k]).value
    decreases |l.elems| - i
  {
    if i < |l.elems| {
      ListToJsonAll(ops, l, i + 1, acc + [PyToJson(ops, l.elems[i]).value]);
    }
  }

  // ---------------------------------------------------------------------
  // Round trips

  /** Below the top level, a representable VRL value goes out to the host
      and back in unchanged. */
  lemma {:induction false} VrlRoundTripNested(ops: FloatOps, x: VrlValue)
    requires Representable(x)
    ensures PyToJson(ops, VrlToPy(x)).Success?
    ensures JsonToVrl(ops, PyToJson(ops, VrlToPy(x)).value) == x
    decreases x, 1
  {
    match x
    case Bytes(b) => EncodeDecode(b);
    case Array(_) => RoundTripArray(ops, x);
    case Object(_) => RoundTripObject(ops, x);
    case _ =>
  }

  lemma {:induction false} RoundTripArray(ops: FloatOps, x: VrlValue)
    requires x.Array? && Representable(x)
    ensures PyToJson(ops, VrlToPy(x)).Success?
    ensures JsonToVrl(ops, PyToJson(ops, VrlToPy(x)).value) == x
    decreases x, 0
  {
    var xs := x.elems;
    var l := VrlToPy(x);
    forall k | 0 <= k < |xs|
      ensures PyToJson(ops, l.elems[k]).Success?
      ensures JsonToVrl(ops, PyToJson(ops, l.elems[k]).value) == xs[k]
    {
      assert xs[k] in xs;
      VrlRoundTripNested(ops, xs[k]);
    }
    ListToJsonAll(ops, l, 0, []);
    var js := PyToJson(ops, l).value.elems;
    var back := JsonToVrl(ops, JArray(js));
    forall k | 0 <= k < |xs| ensures back.elems[k] == xs[k] {
      assert js[k] == PyToJson(ops, l.elems[k]).value;
    }
  }

  /** The entries `vrl_value_to_py` builds for an object, one per key in
      key order. */
  lemma ObjectItems(m: map<string, VrlValue>)
    ensures var d := VrlToPy(Object(m));
            var keys := KeyOrder.SortedKeys(m.Keys);
            |d.items| == |keys| &&
            forall k :: 0 <= k < |keys| ==> d.items[k] == (PyStr(keys[k]), VrlToPy(m[keys[k]]))
  {
  }

  /** Those entries have distinct keys, exactly the object's keys. */
  lemma ObjectItemKeys(m: map<string, VrlValue>)
    ensures DistinctKeys(VrlToPy(Object(m)).items)
    ensures KeysFrom(VrlToPy(Object(m)).items, 0) == m.Keys
  {
    var d := VrlToPy(Object(m));
    var keys := KeyOrder.SortedKeys(m.Keys);
    ObjectItems(m);
    forall a, b | 0 <= a < b < |d.items| ensures d.items[a].0 != d.items[b].0 {
      KeyOrder.LessIrreflexive(keys[a]);
    }
    forall key | key in m ensures key in KeysFrom(d.items, 0) {
      var k :| 0 <= k < |keys| && keys[k] == key;
      assert d.items[k].0.s == key;
    }
  }

  lemma {:induction false} RoundTripObject(ops: FloatOps, x: VrlValue)
    requires x.Object? && Representable(x)
    ensures PyToJson(ops, VrlToPy(x)).Success?
    ensures JsonToVrl(ops, PyToJson(ops, VrlToPy(x)).value) == x
    decreases x, 0
  {
    var m := x.fields;
    var d := VrlToPy(x);
    var keys := KeyOrder.SortedKeys(m.Keys);
    ObjectItems(m);
    ObjectItemKeys(m);
    forall k | 0 <= k < |d.items|
      ensures d.items[k].0.PyStr? && d.items[k].0.s in m && PyToJson(ops, d.items[k].1).Success?
      ensures JsonToVrl(ops, PyToJson(ops, d.items[k].1).value) == m[d.items[k].0.s]
    {
      assert keys[k] in m;
      VrlRoundTripNested(ops, m[keys[k]]);
    }
    ObjectFromItems(ops, m, d);
  }

  /** A dict with distinct str keys, exactly an object's keys, whose values
      each convert to the object's value under their key, converts to that
      object. */
  lemma ObjectFromItems(ops: FloatOps, m: map<string, VrlValue>, d: PyValue)
    requires d.PyDict? && DistinctKeys(d.items) && KeysFrom(d.items, 0) == m.Keys
    requires forall k :: 0 <= k < |d.items| ==>
               d.items[k].0.PyStr? && d.items[k].0.s in m && PyToJson(ops, d.items[k].1).Success? &&
               JsonToVrl(ops, PyToJson(ops, d.items[k].1).value) == m[d.items[k].0.s]
    ensures PyToJson(ops, d).Success?
    ensures JsonToVrl(ops, PyToJson(ops, d).value) == Object(m)
  {
    DictToJsonAll(ops, d, 0, map[]);
    var fields := PyToJson(ops, d).value.fields;
    forall key | key in m ensures JsonToVrl(ops, fields[key]) == m[key] {
      var k :| 0 <= k < |d.items| && d.items[k].0.PyStr? && d.items[k].0.s == key;
    }
    ObjectBack(ops, m, fields);
  }

  /** A JSON object whose fields map back to an object's values is that
      object. */
  lemma ObjectBack(ops: FloatOps, m: map<string, VrlValue>, fields: map<string, JsonValue>)
    requires fields.Keys == m.Keys
    requires forall key :: key in m ==> JsonToVrl(ops, fields[key]) == m[key]
    ensures JsonToVrl(ops, JObject(fields)) == Object(m)
  {
  }

  /** Every float in the JSON value is read back by the parser exactly as
      it was written. Holds of any JSON value without floats. */
  ghost predicate FloatsReadBack(ops: FloatOps, j: JsonValue) {
    match j
    case JNumber(n) => n.JFloat? ==> ops.reparse(n.f) == n.f
    case JArray(xs) => forall x | x in xs :: FloatsReadBack(ops, x)
    case JObject(m) => forall key | key in m :: FloatsReadBack(ops, m[key])
    case _ => true
  }

  /** The floats in a host value's JSON read back exactly. */
  ghost predicate ReadsBack(ops: FloatOps, v: PyValue) {
    PyToJson(ops, v).Success? ==> FloatsReadBack(ops, PyToJson(ops, v).value)
  }

  /** Every finite float a host value puts into JSON, its own floats and
      the floats of its ints beyond 64 bits, reads back exactly. */
  ghost predicate PyFloatsReadBack(ops: FloatOps, v: PyValue) {
    match v
    case PyInt(i) =>
      !InI64(i) && ops.toF64(i).Some? && IsFinite(ops.toF64(i).value) ==>
        ops.reparse(ops.toF64(i).value) == ops.toF64(i).value
    case PyFloat(f) => IsFinite(f) ==> ops.reparse(f) == f
    case PyDict(items) => forall entry | entry in items :: PyFloatsReadBack(ops, entry.1)
    case PyList(xs) => forall x | x in xs :: PyFloatsReadBack(ops, x)
    case _ => true
  }

  /** Every float in a VRL value reads back exactly. */
  ghost predicate VrlFloatsReadBack(ops: FloatOps, x: VrlValue) {
    match x
    case Float(f) => ops.reparse(f) == f
    case Array(xs) => forall y | y in xs :: VrlFloatsReadBack(ops, y)
    case Object(m) => forall key | key in m :: VrlFloatsReadBack(ops, m[key])
    case _ => true
  }

  /** Host values without floats, and without ints beyond 64 bits. */
  ghost predicate FloatFree(v: PyValue) {
    match v
    case PyInt(i) => InI64(i)
    case PyFloat(_) => false
    case PyDict(items) => forall entry | entry in items :: FloatFree(entry.1)
    case PyList(xs) => forall x | x in xs :: FloatFree(x)
    case _ => true
  }

  /** A host value without floats needs nothing of the float parser. */
  lemma {:induction false} FloatFreeReadsBack(ops: FloatOps, v: PyValue)
    requires FloatFree(v)
    ensures PyFloatsReadBack(ops, v)
    decreases v
  {
    match v
    case PyDict(items) =>
      forall entry | entry in items ensures PyFloatsReadBack(ops, entry.1) {
        FloatFreeReadsBack(ops, entry.1);
      }
    case PyList(xs) =>
      forall x | x in xs ensures PyFloatsReadBack(ops, x) {
        FloatFreeReadsBack(ops, x);
      }
    case _ =>
  }

  /** VRL values without floats. */
  ghost predicate VrlFloatFree(x: VrlValue) {
    match x
    case Float(_) => false
    case Array(xs) => forall y | y in xs :: VrlFloatFree(y)
    case Object(m) => forall key | key in m :: VrlFloatFree(m[key])
    case _ => true
  }

  /** A VRL value without floats needs nothing of the float parser. */
  lemma {:induction false} VrlFloatFreeReadsBack(ops: FloatOps, x: VrlValue)
    requires VrlFloatFree(x)
    ensures VrlFloatsReadBack(ops, x)
    decreases x
  {
    match x
    case Array(xs) =>
      forall y | y in xs ensures VrlFloatsReadBack(ops, y) {
        VrlFloatFreeReadsBack(ops, y);
      }
    case Object(m) =>
      forall key | key in m ensures VrlFloatsReadBack(ops, m[key]) {
        VrlFloatFreeReadsBack(ops, m[key]);
      }
    case _ =>
  }

  /** The host value's floats reading back is enough for its JSON's. */
  lemma {:induction false} PyToJsonReadsBack(ops: FloatOps, v: PyValue)
    requires PyFloatsReadBack(ops, v)
    ensures ReadsBack(ops, v)
    decreases v, 1
  {
    match v
    case PyDict(_) => DictToJsonReadsBack(ops, v, 0, map[]);
    case PyList(_) => ListToJsonReadsBack(ops, v, 0, []);
    case _ =>
  }

  lemma {:induction false} DictToJsonReadsBack(ops: FloatOps, d: PyValue, i: nat, acc: map<string, JsonValue>)
    requires d.PyDict? && i <= |d.items| && PyFloatsReadBack(ops, d)
    requires forall key | key in acc :: FloatsReadBack(ops, acc[key])
    ensures DictToJson(ops, d, i, acc).Success? ==>
              forall key | key in DictToJson(ops, d, i, acc).value :: FloatsReadBack(ops, DictToJson(ops, d, i, acc).value[key])
    decreases d, 0, |d.items| - i
  {
    if i < |d.items| {
      var entry := d.items[i];
      assert entry in d.items;
      if entry.0.PyStr? {
        PyToJsonReadsBack(ops, entry.1);
        if PyToJson(ops, entry.1).Success? {
          DictToJsonReadsBack(ops, d, i + 1, acc[entry.0.s := PyToJson(ops, entry.1).value]);
        }
      }
    }
  }

  lemma {:induction false} ListToJsonReadsBack(ops: FloatOps, l: PyValue, i: nat, acc: seq<JsonValue>)
    requires l.PyList? && i <= |l.elems| && PyFloatsReadBack(ops, l)
    requires forall x | x in acc :: FloatsReadBack(ops, x)
    ensures ListToJson(ops, l, i, acc).Success? ==>
              forall x | x in ListToJson(ops, l, i, acc).value :: FloatsReadBack(ops, x)
    decreases l, 0, |l.elems| - i
  {
    if i < |l.elems| {
      assert l.elems[i] in l.elems;
      PyToJsonReadsBack(ops, l.elems[i]);
      if PyToJson(ops, l.elems[i]).Success? {
        ListToJsonReadsBack(ops, l, i + 1, acc + [PyToJson(ops, l.elems[i]).value]);
      }
    }
  }

  /** For JSON without NaN or infinities, the floats of its VRL conversion
      reading back is enough for its own. */
  lemma {:induction false} FloatsThroughJsonToVrl(ops: FloatOps, j: JsonValue)
    requires FiniteFloats(j) && VrlFloatsReadBack(ops, JsonToVrl(ops, j))
    ensures FloatsReadBack(ops, j)
    decreases j
  {
    var x := JsonToVrl(ops, j);
    match j
    case JArray(xs) =>
      forall y | y in xs ensures FloatsReadBack(ops, y) {
        var k :| 0 <= k < |xs| && xs[k] == y;
        assert x.elems[k] in x.elems;
        FloatsThroughJsonToVrl(ops, y);
      }
    case JObject(m) =>
      forall key | key in m ensures FloatsReadBack(ops, m[key]) {
        FloatsThroughJsonToVrl(ops, m[key]);
      }
    case _ =>
  }

  /** Every float in the JSON value is finite. */
  ghost predicate FiniteFloats(j: JsonValue) {
    match j
    case JNumber(n) => n.JFloat? ==> IsFinite(n.f)
    case JArray(xs) => forall x | x in xs :: FiniteFloats(x)
    case JObject(m) => forall key | key in m :: FiniteFloats(m[key])
    case _ => true
  }

  /** `py_to_json_value` never puts a NaN or an infinity into JSON. */
  lemma {:induction false} PyToJsonFinite(ops: FloatOps, v: PyValue)
    ensures PyToJson(ops, v).Success? ==> FiniteFloats(PyToJson(ops, v).value)
    decreases v, 1
  {
    match v
    case PyDict(_) => DictToJsonFinite(ops, v, 0, map[]);
    case PyList(_) => ListToJsonFinite(ops, v, 0, []);
    case _ =>
  }

  lemma {:induction false} DictToJsonFinite(ops: FloatOps, d: PyValue, i: nat, acc: map<string, JsonValue>)
    requires d.PyDict? && i <= |d.items|
    requires forall key | key in acc :: FiniteFloats(acc[key])
    ensures DictToJson(ops, d, i, acc).Success? ==>
              forall key | key in DictToJson(ops, d, i, acc).value :: FiniteFloats(DictToJson(ops, d, i, acc).value[key])
    decreases d, 0, |d.items| - i
  {
    if i < |d.items| {
      var entry := d.items[i];
      assert entry in d.items;
      if entry.0.PyStr? {
        PyToJsonFinite(ops, entry.1);
        if PyToJson(ops, entry.1).Success? {
          DictToJsonFinite(ops, d, i + 1, acc[entry.0.s := PyToJson(ops, entry.1).value]);
        }
      }
    }
  }

  lemma {:induction false} ListToJsonFinite(ops: FloatOps, l: PyValue, i: nat, acc: seq<JsonValue>)
    requires l.PyList? && i <= |l.elems|
    requires forall x | x in acc :: FiniteFloats(x)
    ensures ListToJson(ops, l, i, acc).Success? ==>
              forall x | x in ListToJson(ops, l, i, acc).value :: FiniteFloats(x)
    decreases l, 0, |l.elems| - i
  {
    if i < |l.elems| {
      PyToJsonFinite(ops, l.elems[i]);
      if PyToJson(ops, l.elems[i]).Success? {
        ListToJsonFinite(ops, l, i + 1, acc + [PyToJson(ops, l.elems[i]).value]);
      }
    }
  }

  /** Writing JSON as text and reading it back changes nothing when its
      floats read back exactly; in particular when it holds no float. */
  lemma {:induction false} RereadExact(ops: FloatOps, j: JsonValue)
    requires FloatsReadBack(ops, j)
    ensures Reread(ops, j) == j
    decreases j
  {
    match j
    case JArray(xs) =>
      forall k | 0 <= k < |xs| ensures Reread(ops, xs[k]) == xs[k] {
        assert xs[k] in xs;
        RereadExact(ops, xs[k]);
      }
      assert Reread(ops, j).elems == xs;
    case JObject(m) =>
      forall key | key in m ensures Reread(ops, m[key]) == m[key] {
        RereadExact(ops, m[key]);
      }
      assert Reread(ops, j).fields == m;
    case _ =>
  }

  /** `py_to_vrl_value` parses the same JSON as `py_to_json_value` builds,
      except for floats and for integers out of 64-bit range at the top,
      when the nesting is within the limit and the JSON's floats, if any,
      read back exactly. */
  lemma EventJsonAgrees(ops: FloatOps, v: PyValue)
    requires !v.PyFloat? && !v.PyOther? && (v.PyInt? ==> InI64(v.i))
    requires ReadsBack(ops, v) && ParsesBack(ops, v)
    ensures EventJson(ops, v) == PyToJson(ops, v)
  {
    if PyToJson(ops, v).Success? {
      RereadExact(ops, PyToJson(ops, v).value);
    }
  }

  /** VRL values nesting at most d arrays and objects. */
  ghost predicate VrlWithinDepth(x: VrlValue, d: nat) {
    match x
    case Array(xs) => d > 0 && forall y | y in xs :: VrlWithinDepth(y, d - 1)
    case Object(m) => d > 0 && forall key | key in m :: VrlWithinDepth(m[key], d - 1)
    case _ => true
  }

  /** Host values nesting at most d dicts and lists. */
  ghost predicate PyWithinDepth(v: PyValue, d: nat) {
    match v
    case PyDict(items) => d > 0 && forall entry | entry in items :: PyWithinDepth(entry.1, d - 1)
    case PyList(xs) => d > 0 && forall x | x in xs :: PyWithinDepth(x, d - 1)
    case _ => true
  }

  /** `json_to_vrl_value` keeps the nesting depth. */
  lemma {:induction false} DepthThroughJsonToVrl(ops: FloatOps, j: JsonValue, d: nat)
    ensures WithinDepth(j, d) <==> VrlWithinDepth(JsonToVrl(ops, j), d)
    decreases j
  {
    var x := JsonToVrl(ops, j);
    match j
    case JArray(xs) =>
      if d > 0 && WithinDepth(j, d) {
        forall y | y in x.elems ensures VrlWithinDepth(y, d - 1) {
          var k :| 0 <= k < |x.elems| && x.elems[k] == y;
          assert xs[k] in xs;
          DepthThroughJsonToVrl(ops, xs[k], d - 1);
        }
      }
      if d > 0 && VrlWithinDepth(x, d) {
        forall y | y in xs ensures WithinDepth(y, d - 1) {
          var k :| 0 <= k < |xs| && xs[k] == y;
          assert x.elems[k] in x.elems;
          DepthThroughJsonToVrl(ops, xs[k], d - 1);
        }
      }
    case JObject(m) =>
      if d > 0 {
        forall key | key in m ensures WithinDepth(m[key], d - 1) <==> VrlWithinDepth(x.fields[key], d - 1) {
          DepthThroughJsonToVrl(ops, m[key], d - 1);
        }
      }
    case _ =>
  }

  /** VRL to host and back: a representable value, other than a float at
      the top and not nested as deep as the parser's limit, converts out to
      the host and back in unchanged when its floats, if any, read back
      exactly. */
  lemma VrlRoundTrip(ops: FloatOps, x: VrlValue)
    requires Representable(x) && !x.Float?
    requires VrlFloatsReadBack(ops, x) && VrlWithinDepth(x, RecursionLimit - 1)
    ensures PyToVrl(ops, VrlToPy(x)) == Success(x)
  {
    VrlRoundTripNested(ops, x);
    PyToJsonFinite(ops, VrlToPy(x));
    FloatsThroughJsonToVrl(ops, PyToJson(ops, VrlToPy(x)).value);
    DepthThroughJsonToVrl(ops, PyToJson(ops, VrlToPy(x)).value, RecursionLimit - 1);
    EventJsonAgrees(ops, VrlToPy(x));
  }

  /** A JSON-safe host value converts, and to a representable VRL value. */
  lemma {:induction false} SafeIsRepresentable(ops: FloatOps, v: PyValue)
    requires JsonSafe(v)
    ensures PyToJson(ops, v).Success?
    ensures Representable(JsonToVrl(ops, PyToJson(ops, v).value))
    decreases v
  {
    match v
    case PyStr(s) =>
      assert Encode(s) == JsonToVrl(ops, PyToJson(ops, v).value).bytes;
    case PyList(xs) =>
      forall k | 0 <= k < |xs| {
        SafeIsRepresentable(ops, xs[k]);
      }
      ListToJsonAll(ops, v, 0, []);
      var js := PyToJson(ops, v).value.elems;
      forall k | 0 <= k < |xs| ensures Representable(JsonToVrl(ops, JArray(js)).elems[k]) {
        assert js[k] == PyToJson(ops, xs[k]).value;
      }
    case PyDict(items) =>
      forall k | 0 <= k < |items| ensures items[k].0.PyStr? && PyToJson(ops, items[k].1).Success? {
        assert EntrySafe(v, k);
        SafeIsRepresentable(ops, items[k].1);
      }
      DictToJsonAll(ops, v, 0, map[]);
      var fields := PyToJson(ops, v).value.fields;
      forall key | key in fields ensures Representable(JsonToVrl(ops, fields[key])) {
        var k :| 0 <= k < |items| && items[k].0.PyStr? && items[k].0.s == key;
        assert EntrySafe(v, k);
        SafeIsRepresentable(ops, items[k].1);
      }
    case _ =>
  }

  /** The VRL value a JSON-safe host value converts to has floats that
      read back whenever the host value's do. */
  lemma {:induction false} SafeReadsBack(ops: FloatOps, v: PyValue)
    requires JsonSafe(v) && PyFloatsReadBack(ops, v)
    ensures PyToJson(ops, v).Success?
    ensures VrlFloatsReadBack(ops, JsonToVrl(ops, PyToJson(ops, v).value))
    decreases v
  {
    SafeIsRepresentable(ops, v);
    match v
    case PyList(xs) =>
      forall k | 0 <= k < |xs|
        ensures PyToJson(ops, xs[k]).Success? && VrlFloatsReadBack(ops, JsonToVrl(ops, PyToJson(ops, xs[k]).value))
      {
        assert xs[k] in xs;
        SafeReadsBack(ops, xs[k]);
      }
      ListToJsonAll(ops, v, 0, []);
      var js := PyToJson(ops, v).value.elems;
      var ys := JsonToVrl(ops, JArray(js)).elems;
      forall y | y in ys ensures VrlFloatsReadBack(ops, y) {
        var k :| 0 <= k < |ys| && ys[k] == y;
        assert js[k] == PyToJson(ops, xs[k]).value;
      }
    case PyDict(items) =>
      forall k | 0 <= k < |items| ensures items[k].0.PyStr? && PyToJson(ops, items[k].1).Success? {
        assert items[k] in items;
        SafeIsRepresentable(ops, items[k].1);
      }
      DictToJsonAll(ops, v, 0, map[]);
      var fields := PyToJson(ops, v).value.fields;
      forall key | key in fields ensures VrlFloatsReadBack(ops, JsonToVrl(ops, fields[key])) {
        var k :| 0 <= k < |items| && items[k].0.PyStr? && items[k].0.s == key;
        assert items[k] in items;
        SafeReadsBack(ops, items[k].1);
      }
    case _ =>
  }

  /** A JSON-safe host value's JSON nests no deeper than the value. */
  lemma {:induction false} SafeDepth(ops: FloatOps, v: PyValue, d: nat)
    requires JsonSafe(v) && PyWithinDepth(v, d)
    ensures PyToJson(ops, v).Success?
    ensures WithinDepth(PyToJson(ops, v).value, d)
    decreases v, 1
  {
    SafeIsRepresentable(ops, v);
    match v
    case PyList(_) => SafeDepthList(ops, v, d);
    case PyDict(_) => SafeDepthDict(ops, v, d);
    case _ =>
  }

  lemma {:induction false} SafeDepthList(ops: FloatOps, v: PyValue, d: nat)
    requires v.PyList? && JsonSafe(v) && PyWithinDepth(v, d)
    ensures PyToJson(ops, v).Success?
    ensures WithinDepth(PyToJson(ops, v).value, d)
    decreases v, 0
  {
    var xs := v.elems;
    forall k | 0 <= k < |xs|
      ensures PyToJson(ops, xs[k]).Success? && WithinDepth(PyToJson(ops, xs[k]).value, d - 1)
    {
      assert xs[k] in xs;
      SafeDepth(ops, xs[k], d - 1);
    }
    ListToJsonAll(ops, v, 0, []);
    var js := PyToJson(ops, v).value.elems;
    forall y | y in js ensures WithinDepth(y, d - 1) {
      var k :| 0 <= k < |js| && js[k] == y;
      assert js[k] == PyToJson(ops, xs[k]).value;
    }
  }

  lemma {:induction false} SafeDepthDict(ops: FloatOps, v: PyValue, d: nat)
    requires v.PyDict? && JsonSafe(v) && PyWithinDepth(v, d)
    ensures PyToJson(ops, v).Success?
    ensures WithinDepth(PyToJson(ops, v).value, d)
    decreases v, 0
  {
    var items := v.items;
    forall k | 0 <= k < |items|
      ensures items[k].0.PyStr? && PyToJson(ops, items[k].1).Success?
      ensures WithinDepth(PyToJson(ops, items[k].1).value, d - 1)
    {
      assert items[k] in items;
      SafeDepth(ops, items[k].1, d - 1);
    }
    DictToJsonAll(ops, v, 0, map[]);
    var fields := PyToJson(ops, v).value.fields;
    forall key | key in fields ensures WithinDepth(fields[key], d - 1) {
      var k :| 0 <= k < |items| && items[k].0.PyStr? && items[k].0.s == key;
    }
  }

  /** Host to VRL and back, as VRL sees it: the host value handed back for
      a JSON-safe event converts to the very VRL value the event did. */
  lemma HostRoundTrip(ops: FloatOps, v: PyValue)
    requires JsonSafe(v) && !v.PyFloat?
    requires PyFloatsReadBack(ops, v) && PyWithinDepth(v, RecursionLimit - 1)
    ensures PyToVrl(ops, v).Success?
    ensures PyToVrl(ops, VrlToPy(PyToVrl(ops, v).value)) == PyToVrl(ops, v)
  {
    SafeIsRepresentable(ops, v);
    SafeReadsBack(ops, v);
    PyToJsonReadsBack(ops, v);
    SafeDepth(ops, v, RecursionLimit - 1);
    EventJsonAgrees(ops, v);
    DepthThroughJsonToVrl(ops, PyToJson(ops, v).value, RecursionLimit - 1);
    VrlRoundTrip(ops, PyToVrl(ops, v).value);
  }

  /** Below the top level, a JSON-safe host value whose dicts are in key
      order comes back from VRL identical. */
  lemma {:induction false} HostRoundTripExactNested(ops: FloatOps, v: PyValue)
    requires JsonSafe(v) && KeyOrdered(v)
    ensures PyToJson(ops, v).Success?
    ensures VrlToPy(JsonToVrl(ops, PyToJson(ops, v).value)) == v
    decreases v, 1
  {
    SafeIsRepresentable(ops, v);
    match v
    case PyStr(s) => DecodeEncode(s);
    case PyList(xs) => ExactList(ops, v);
    case PyDict(items) => ExactDict(ops, v);
    case _ =>
  }

  lemma {:induction false} ExactList(ops: FloatOps, v: PyValue)
    requires v.PyList? && JsonSafe(v) && KeyOrdered(v)
    ensures PyToJson(ops, v).Success?
    ensures VrlToPy(JsonToVrl(ops, PyToJson(ops, v).value)) == v
    decreases v, 0
  {
    var xs := v.elems;
    forall k | 0 <= k < |xs| {
      HostRoundTripExactNested(ops, xs[k]);
    }
    ListToJsonAll(ops, v, 0, []);
    var js := PyToJson(ops, v).value.elems;
    var back := VrlToPy(JsonToVrl(ops, JArray(js)));
    forall k | 0 <= k < |xs| ensures back.elems[k] == xs[k] {
      assert js[k] == PyToJson(ops, xs[k]).value;
    }
  }

  lemma {:induction false} ExactDict(ops: FloatOps, v: PyValue)
    requires v.PyDict? && JsonSafe(v) && KeyOrdered(v)
    ensures PyToJson(ops, v).Success?
    ensures VrlToPy(JsonToVrl(ops, PyToJson(ops, v).value)) == v
    decreases v, 0
  {
    var items := v.items;
    forall k | 0 <= k < |items|
      ensures items[k].0.PyStr? && PyToJson(ops, items[k].1).Success?
      ensures VrlToPy(JsonToVrl(ops, PyToJson(ops, items[k].1).value)) == items[k].1
    {
      assert items[k] in items;
      HostRoundTripExactNested(ops, items[k].1);
    }
    DictToJsonAll(ops, v, 0, map[]);
    var fields := PyToJson(ops, v).value.fields;
    var m := JsonToVrl(ops, JObject(fields)).fields;
    var keys := KeyOrder.SortedKeys(m.Keys);
    SameKeyOrder(items, m.Keys);
    ObjectItems(m);
    var back := VrlToPy(Object(m));
    forall k | 0 <= k < |items| ensures back.items[k] == items[k] {
      assert keys[k] == items[k].0.s;
    }
  }

  /** Entries with str keys in strictly increasing order list those keys as
      a `BTreeMap` iterates them. */
  lemma SameKeyOrder(items: seq<(PyValue, PyValue)>, s: set<string>)
    requires forall k :: 0 <= k < |items| ==> items[k].0.PyStr?
    requires KeyOrder.StrictlySorted(DictKeys(items))
    requires s == KeysFrom(items, 0)
    ensures KeyOrder.SortedKeys(s) == DictKeys(items)
  {
    var keys := DictKeys(items);
    forall key ensures key in keys <==> key in s {
      if key in keys {
        var k :| 0 <= k < |keys| && keys[k] == key;
      }
    }
    KeyOrder.SortedUnique(KeyOrder.SortedKeys(s), keys);
  }

  /** Host to VRL and back, exactly: a JSON-safe event that is not a bare
      float and whose dicts are in key order comes back identical. */
  lemma HostRoundTripExact(ops: FloatOps, v: PyValue)
    requires JsonSafe(v) && KeyOrdered(v) && !v.PyFloat?
    requires PyFloatsReadBack(ops, v) && PyWithinDepth(v, RecursionLimit - 1)
    ensures PyToVrl(ops, v).Success?
    ensures VrlToPy(PyToVrl(ops, v).value) == v
  {
    HostRoundTripExactNested(ops, v);
    PyToJsonReadsBack(ops, v);
    SafeDepth(ops, v, RecursionLimit - 1);
    EventJsonAgrees(ops, v);
  }

  // ---------------------------------------------------------------------
  // Equality as the host compares values

  /** Host equality with dicts compared as the host compares them: the
      same number of entries, and each key of one found in the other with
      an equal value. Scalars and lists compare exactly. */
  ghost predicate SameUpToDictOrder(a: PyValue, b: PyValue) {
    match a
    case PyDict(items) =>
      b.PyDict? && |items| == |b.items| &&
      forall entry | entry in items :: exists other | other in b.items :: other.0 == entry.0 && SameUpToDictOrder(entry.1, other.1)
    case PyList(xs) =>
      b.PyList? && |xs| == |b.elems| && forall k :: 0 <= k < |xs| ==> SameUpToDictOrder(xs[k], b.elems[k])
    case _ => a == b
  }

  /** Distinct str keys from index i on are as many as the entries. */
  lemma {:induction false} KeysFromCount(items: seq<(PyValue, PyValue)>, i: nat)
    requires i <= |items| && DistinctKeys(items)
    requires forall k :: i <= k < |items| ==> items[k].0.PyStr?
    ensures |KeysFrom(items, i)| == |items| - i
    decreases |items| - i
  {
    if i < |items| {
      KeysFromCount(items, i + 1);
      assert KeysFrom(items, i) == {items[i].0.s} + KeysFrom(items, i + 1);
      assert items[i].0.s !in KeysFrom(items, i + 1);
    } else {
      assert KeysFrom(items, i) == {};
    }
  }

  /** Below the top level, a JSON-safe host value comes back from VRL equal
      to itself as the host compares values, whatever its dicts' order. */
  lemma {:induction false} SameNested(ops: FloatOps, v: PyValue)
    requires JsonSafe(v)
    ensures PyToJson(ops, v).Success?
    ensures SameUpToDictOrder(VrlToPy(JsonToVrl(ops, PyToJson(ops, v).value)), v)
    decreases v, 1
  {
    SafeIsRepresentable(ops, v);
    match v
    case PyStr(s) => DecodeEncode(s);
    case PyList(_) => SameList(ops, v);
    case PyDict(_) => SameDict(ops, v);
    case _ =>
  }

  lemma {:induction false} SameList(ops: FloatOps, v: PyValue)
    requires v.PyList? && JsonSafe(v)
    ensures PyToJson(ops, v).Success?
    ensures SameUpToDictOrder(VrlToPy(JsonToVrl(ops, PyToJson(ops, v).value)), v)
    decreases v, 0
  {
    var xs := v.elems;
    forall k | 0 <= k < |xs| {
      SameNested(ops, xs[k]);
    }
    ListToJsonAll(ops, v, 0, []);
    var js := PyToJson(ops, v).value.elems;
    var back := VrlToPy(JsonToVrl(ops, JArray(js)));
    forall k | 0 <= k < |xs| ensures SameUpToDictOrder(back.elems[k], xs[k]) {
      assert js[k] == PyToJson(ops, xs[k]).value;
    }
  }

  lemma {:induction false} SameDict(ops: FloatOps, v: PyValue)
    requires v.PyDict? && JsonSafe(v)
    ensures PyToJson(ops, v).Success?
    ensures SameUpToDictOrder(VrlToPy(JsonToVrl(ops, PyToJson(ops, v).value)), v)
    decreases v, 0
  {
    var items := v.items;
    forall k | 0 <= k < |items|
      ensures items[k].0.PyStr? && PyToJson(ops, items[k].1).Success?
      ensures SameUpToDictOrder(VrlToPy(JsonToVrl(ops, PyToJson(ops, items[k].1).value)), items[k].1)
    {
      assert items[k] in items;
      SameNested(ops, items[k].1);
    }
    DictToJsonAll(ops, v, 0, map[]);
    var fields := PyToJson(ops, v).value.fields;
    var m := JsonToVrl(ops, JObject(fields)).fields;
    forall k | 0 <= k < |items|
      ensures SameUpToDictOrder(VrlToPy(m[items[k].0.s]), items[k].1)
    {
      assert fields[items[k].0.s] == PyToJson(ops, items[k].1).value;
    }
    DictFromObject(m, v);
  }

  /** A VRL object comes back as a dict equal to a host dict, up to order,
      when the dict's distinct str keys are the object's keys and each value
      comes back equal to the dict's value under its key. */
  lemma DictFromObject(m: map<string, VrlValue>, v: PyValue)
    requires v.PyDict? && DistinctKeys(v.items)
    requires forall k :: 0 <= k < |v.items| ==> v.items[k].0.PyStr?
    requires KeysFrom(v.items, 0) == m.Keys
    requires forall k :: 0 <= k < |v.items| ==> SameUpToDictOrder(VrlToPy(m[v.items[k].0.s]), v.items[k].1)
    ensures SameUpToDictOrder(VrlToPy(Object(m)), v)
  {
    var conv := map key | key in m :: VrlToPy(m[key]);
    ConvertedMatch(m, conv, v);
    ObjectEntries(m, conv);
    ObjectMatches(conv, v, KeyOrder.SortedKeys(m.Keys), VrlToPy(Object(m)));
  }

  /** The entries `vrl_value_to_py` builds for an object, in terms of the
      converted values under each key. */
  lemma ObjectEntries(m: map<string, VrlValue>, conv: map<string, PyValue>)
    requires conv == map key | key in m :: VrlToPy(m[key])
    ensures var back := VrlToPy(Object(m));
            var keys := KeyOrder.SortedKeys(m.Keys);
            back.PyDict? && |back.items| == |keys| == |m.Keys| &&
            forall i :: 0 <= i < |keys| ==> keys[i] in conv && back.items[i] == (PyStr(keys[i]), conv[keys[i]])
  {
    ObjectItems(m);
  }

  lemma ConvertedMatch(m: map<string, VrlValue>, conv: map<string, PyValue>, v: PyValue)
    requires v.PyDict? && DistinctKeys(v.items)
    requires forall k :: 0 <= k < |v.items| ==> v.items[k].0.PyStr?
    requires KeysFrom(v.items, 0) == m.Keys
    requires forall k :: 0 <= k < |v.items| ==> SameUpToDictOrder(VrlToPy(m[v.items[k].0.s]), v.items[k].1)
    requires conv == map key | key in m :: VrlToPy(m[key])
    ensures |v.items| == |m.Keys|
    ensures forall key | key in conv :: exists k :: 0 <= k < |v.items| && v.items[k].0.s == key
    ensures forall k :: 0 <= k < |v.items| ==>
              v.items[k].0.s in conv && SameUpToDictOrder(conv[v.items[k].0.s], v.items[k].1)
  {
    var items := v.items;
    KeysFromCount(items, 0);
    forall key | key in conv ensures exists k :: 0 <= k < |items| && items[k].0.s == key {
      assert key in KeysFrom(items, 0);
    }
    forall k | 0 <= k < |items|
      ensures items[k].0.s in conv && SameUpToDictOrder(conv[items[k].0.s], items[k].1)
    {
      assert items[k].0.s in KeysFrom(items, 0);
    }
  }


  /** Entries listing converted values under the keys in order match a
      dict whose values each equal, up to order, the converted value under
      their key. */
  lemma ObjectMatches(conv: map<string, PyValue>, v: PyValue, keys: seq<string>, back: PyValue)
    requires v.PyDict? && back.PyDict? && |back.items| == |keys| == |v.items|
    requires forall k :: 0 <= k < |v.items| ==> v.items[k].0.PyStr? && v.items[k].0.s in conv
    requires forall key | key in conv :: exists k :: 0 <= k < |v.items| && v.items[k].0.s == key
    requires forall i :: 0 <= i < |keys| ==> keys[i] in conv && back.items[i] == (PyStr(keys[i]), conv[keys[i]])
    requires forall k :: 0 <= k < |v.items| ==> SameUpToDictOrder(conv[v.items[k].0.s], v.items[k].1)
    ensures SameUpToDictOrder(back, v)
  {
    var items := v.items;
    forall entry | entry in back.items
      ensures exists other | other in items :: other.0 == entry.0 && SameUpToDictOrder(entry.1, other.1)
    {
      var i :| 0 <= i < |back.items| && back.items[i] == entry;
      var k :| 0 <= k < |items| && items[k].0.s == keys[i];
      var other := items[k];
      assert other in items;
      assert other.0 == PyStr(keys[i]) == entry.0;
      assert entry.1 == conv[other.0.s];
    }
  }

  /** Host to VRL and back, as the host compares values: a JSON-safe event
      that is not a bare float comes back equal to itself, whatever the
      order of its dicts' entries. */
  lemma HostRoundTripUpToOrder(ops: FloatOps, v: PyValue)
    requires JsonSafe(v) && !v.PyFloat?
    requires PyFloatsReadBack(ops, v) && PyWithinDepth(v, RecursionLimit - 1)
    ensures PyToVrl(ops, v).Success?
    ensures SameUpToDictOrder(VrlToPy(PyToVrl(ops, v).value), v)
  {
    SameNested(ops, v);
    PyToJsonReadsBack(ops, v);
    SafeDepth(ops, v, RecursionLimit - 1);
    EventJsonAgrees(ops, v);
  }

  /** For an event without floats the round trip holds whatever the
      parser does with floats. */
  lemma FloatFreeRoundTrip(ops: FloatOps, v: PyValue)
    requires JsonSafe(v) && FloatFree(v) && PyWithinDepth(v, RecursionLimit - 1)
    ensures PyToVrl(ops, v).Success?
    ensures SameUpToDictOrder(VrlToPy(PyToVrl(ops, v).value), v)
    ensures KeyOrdered(v) ==> VrlToPy(PyToVrl(ops, v).value) == v
  {
    FloatFreeReadsBack(ops, v);
    HostRoundTripUpToOrder(ops, v);
    if KeyOrdered(v) {
      HostRoundTripExact(ops, v);
    }
  }
}
