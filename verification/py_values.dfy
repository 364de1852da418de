/** Python values as the collectors see them: optional values, dictionary
    keys that may be absent or hold `None`, dynamically typed scraper
    fields, truthiness, the `a or b or c` chain, and the guarded numeric
    conversions `_safe_float` / `_safe_int` of src/collectors/gbp_reviews.py.
 */
module PyValues {

  /** A value or Python's `None`. */
  datatype Option<+T> = None | Some(value: T) {
    function GetOr(default: T): T {
      match this
      case Some(v) => v
      case None => default
    }
  }

  /** One key of a Python dict with a typed value: the key is absent,
      present and mapped to `None`, or present with a value. */
  datatype Field<+T> = Missing | Null | Val(v: T) {

    /** `d.get(key)`: an absent key and a `None` value both read as `None`. */
    function Get(): Option<T> {
      match this
      case Val(x) => Some(x)
      case _ => None
    }

    /** `d.get(key, default)`: the default only replaces an ABSENT key;
        a key mapped to `None` still reads as `None`. */
    function GetDefault(default: T): Option<T> {
      match this
      case Missing => Some(default)
      case Null => None
      case Val(x) => Some(x)
    }

    /** The key occurs in the dict (whatever its value). */
    predicate Present() {
      !Missing?
    }
  }

  /** Python truthiness of `d.get(key)` for a typed field, where `zero`
      is the one falsy value of the type (`""`, `[]`, `0`, `0.0`, `False`). */
  predicate Truthy<T(==)>(f: Field<T>, zero: T) {
    f.Val? && f.v != zero
  }

  /** A dynamically typed value read from a scraper's JSON item.
      Lists and dicts are only seen through their size. */
  datatype PyValue =
    | PyNone
    | PyBool(b: bool)
    | PyInt(i: int)
    | PyFloat(r: real)
    | PyStr(s: string)
    | PyContainer(size: nat)

  /** Python truthiness of a dynamic value. */
  predicate IsTruthy(v: PyValue) {
    match v
    case PyNone => false
    case PyBool(b) => b
    case PyInt(i) => i != 0
    case PyFloat(r) => r != 0.0
    case PyStr(s) => |s| > 0
    case PyContainer(n) => n > 0
  }

  /** A scraper item: a JSON object. */
  type PyDict = map<string, PyValue>

  /** `d.get(key)`. */
  function Get(d: PyDict, key: string): PyValue {
    if key in d then d[key] else PyNone
  }

  /** `vs[0] or vs[1] or ... or vs[n-1]`: the first truthy operand, or the
      last operand when none is truthy. */
  function OrChain(vs: seq<PyValue>): (r: PyValue)
    requires |vs| > 0
    ensures IsTruthy(r) <==> exists i :: 0 <= i < |vs| && IsTruthy(vs[i])
    ensures IsTruthy(r) ==> exists i :: 0 <= i < |vs| && vs[i] == r &&
                                        forall j :: 0 <= j < i ==> !IsTruthy(vs[j])
    ensures !IsTruthy(r) ==> r == vs[|vs| - 1]
  {
    if |vs| == 1 || IsTruthy(vs[0]) then vs[0]
    else
      var r := OrChain(vs[1..]);
      assert forall i :: 1 <= i < |vs| ==> vs[i] == vs[1..][i - 1];
      r
  }

  /** `d.get(k0) or d.get(k1) or ...`, the source's way of reading one
      logical field that different scrapers name differently. */
  function GetAny(d: PyDict, keys: seq<string>): (r: PyValue)
    requires |keys| > 0
    ensures IsTruthy(r) <==> exists i :: 0 <= i < |keys| && IsTruthy(Get(d, keys[i]))
    ensures IsTruthy(r) ==> exists i :: 0 <= i < |keys| && Get(d, keys[i]) == r &&
                                        forall j :: 0 <= j < i ==> !IsTruthy(Get(d, keys[j]))
    ensures !IsTruthy(r) ==> r == Get(d, keys[|keys| - 1])
  {
    var vs := seq(|keys|, i requires 0 <= i < |keys| => Get(d, keys[i]));
    assert forall i :: 0 <= i < |keys| ==> vs[i] == Get(d, keys[i]);
    OrChain(vs)
  }

  /** `GetAny` reads only the listed keys. */
  lemma GetAnyFrame(d1: PyDict, d2: PyDict, keys: seq<string>)
    requires |keys| > 0
    requires forall i :: 0 <= i < |keys| ==> Get(d1, keys[i]) == Get(d2, keys[i])
    ensures GetAny(d1, keys) == GetAny(d2, keys)
  {
    var vs1 := seq(|keys|, i requires 0 <= i < |keys| => Get(d1, keys[i]));
    var vs2 := seq(|keys|, i requires 0 <= i < |keys| => Get(d2, keys[i]));
    assert vs1 == vs2;
  }

  /** The number of items whose `or` chain over `keys` is truthy, counted
      one item at a time (the reviews an owner answered, say). */
  function CountTruthy(items: seq<PyDict>, keys: seq<string>): (n: nat)
    requires |keys| > 0
    ensures n <= |items|
  {
    if |items| == 0 then 0
    else CountTruthy(items[..|items| - 1], keys) + (if IsTruthy(GetAny(items[|items| - 1], keys)) then 1 else 0)
  }

  /** The string parsers behind `float(s)` and `int(s)`; `None` when Python
      raises `ValueError`. They are library behaviour and kept abstract. */
  datatype Parsers = Parsers(parseFloat: string -> Option<real>, parseInt: string -> Option<int>)

  /** `_safe_float(x)`: `float(x)`, or `None` where Python raises. */
  function SafeFloat(v: PyValue, p: Parsers): (r: Option<real>)
    ensures v.PyNone? || v.PyContainer? ==> r.None?
    ensures v.PyStr? ==> r == p.parseFloat(v.s)
    ensures v.PyInt? ==> r == Some(v.i as real)
    ensures v.PyFloat? ==> r == Some(v.r)
    ensures v.PyBool? ==> r == Some(if v.b then 1.0 else 0.0)
  {
    match v
    case PyNone => None
    case PyBool(b) => Some(if b then 1.0 else 0.0)
    case PyInt(i) => Some(i as real)
    case PyFloat(x) => Some(x)
    case PyStr(s) => p.parseFloat(s)
    case PyContainer(_) => None
  }

  /** `int(x)` of a float: truncation toward zero. */
  function Truncate(x: real): (n: int)
    ensures 0.0 <= x ==> n as real <= x < n as real + 1.0
    ensures x < 0.0 ==> n as real - 1.0 < x <= n as real
  {
    if x >= 0.0 then x.Floor else -((-x).Floor)
  }

  /** `_safe_int(x)`: `int(x)`, or `None` where Python raises. */
  function SafeInt(v: PyValue, p: Parsers): (r: Option<int>)
    ensures v.PyNone? || v.PyContainer? ==> r.None?
    ensures v.PyStr? ==> r == p.parseInt(v.s)
    ensures v.PyInt? ==> r == Some(v.i)
  {
    match v
    case PyNone => None
    case PyBool(b) => Some(if b then 1 else 0)
    case PyInt(i) => Some(i)
    case PyFloat(x) => Some(Truncate(x))
    case PyStr(s) => p.parseInt(s)
    case PyContainer(_) => None
  }

  /** On every non-string value the two guarded conversions agree: both
      fail together, and `_safe_int` is `_safe_float` truncated toward zero. */
  lemma SafeIntTruncatesSafeFloat(v: PyValue, p: Parsers)
    requires !v.PyStr?
    ensures SafeInt(v, p).Some? <==> SafeFloat(v, p).Some?
    ensures SafeInt(v, p).Some? ==> SafeInt(v, p).value == Truncate(SafeFloat(v, p).value)
  {
    match v
    case PyInt(i) =>
      assert Truncate(i as real) == i;
    case PyBool(b) =>
      assert Truncate(1.0) == 1;
      assert Truncate(0.0) == 0;
    case _ =>
  }
}
