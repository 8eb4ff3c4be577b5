/** A decoded JSON tree (the result of `json.loads`) and the Python
    operations the modelled code applies to it: `d.get(k, default)`, `d[k]`,
    iteration, and `.strip()` on a value that should be a string. */
module Json {
  import opened Wrappers
  import opened Exceptions
  import Text

  /** Numbers are whole numbers here: floating point is not modelled. */
  datatype JValue =
    | JNull
    | JBool(b: bool)
    | JNum(n: int)
    | JStr(s: string)
    | JArr(items: seq<JValue>)
    | JObj(fields: map<string, JValue>)

  const EmptyObject: JValue := JObj(map[])
  const EmptyList: JValue := JArr([])

  /** The Python class name of the decoded value, as it appears in error messages. */
  function TypeName(v: JValue): string
  {
    match v
    case JNull => "NoneType"
    case JBool(_) => "bool"
    case JNum(_) => "int"
    case JStr(_) => "str"
    case JArr(_) => "list"
    case JObj(_) => "dict"
  }

  /** `v.get(key, default)`: only a dict has `.get`. */
  function Get(v: JValue, key: string, default: JValue): (r: Result<JValue, Exception>)
    ensures r.Success? <==> v.JObj?
    ensures v.JObj? && key in v.fields ==> r == Success(v.fields[key])
    ensures v.JObj? && key !in v.fields ==> r == Success(default)
    ensures r.Failure? ==> r.error.AttributeError?
  {
    match v
    case JObj(m) => Success(if key in m then m[key] else default)
    case _ => Failure(AttributeError("'" + TypeName(v) + "' object has no attribute 'get'"))
  }

  /** The dict behind `v`, for a series of `.get` calls on it: the first
      call raises when `v` is not a dict, and the later ones cannot. */
  function AsObject(v: JValue): (r: Result<map<string, JValue>, Exception>)
    ensures r.Success? <==> v.JObj?
    ensures r.Success? ==> r.value == v.fields
    ensures r.Failure? ==> r.error == Get(v, "", JNull).error
  {
    match v
    case JObj(m) => Success(m)
    case _ => Failure(AttributeError("'" + TypeName(v) + "' object has no attribute 'get'"))
  }

  /** `m.get(key, default)` on a dict. */
  function Lookup(m: map<string, JValue>, key: string, default: JValue): JValue
  {
    if key in m then m[key] else default
  }

  /** `v[key]` with a string key. */
  function Index(v: JValue, key: string): (r: Result<JValue, Exception>)
    ensures r.Success? <==> v.JObj? && key in v.fields
    ensures r.Success? ==> r.value == v.fields[key]
    ensures v.JObj? && key !in v.fields ==> r == Failure(KeyError(key))
  {
    match v
    case JObj(m) => if key in m then Success(m[key]) else Failure(KeyError(key))
    case JArr(_) => Failure(TypeError("list indices must be integers or slices, not str"))
    case JStr(_) => Failure(TypeError("string indices must be integers, not 'str'"))
    case _ => Failure(TypeError("'" + TypeName(v) + "' object is not subscriptable"))
  }

  /** The elements `for x in v` visits. A str yields its characters and a
      dict yields its keys; both are strings, and every loop modelled here
      fails on the first string element before its text matters, so a
      dict's keys are represented by placeholders of the right number. */
  function Elements(v: JValue): (r: Result<seq<JValue>, Exception>)
    ensures v.JArr? ==> r == Success(v.items)
    ensures v == JStr("") || v == EmptyObject ==> r == Success([])
    ensures r.Success? <==> v.JArr? || v.JStr? || v.JObj?
  {
    match v
    case JArr(xs) => Success(xs)
    case JStr(s) => if s == "" then Success([]) else Success(seq(|s|, i requires 0 <= i < |s| => JStr([s[i]])))
    case JObj(m) => if m == map[] then Success([]) else Success(seq(|m|, _ => JStr("")))
    case _ => Failure(TypeError("'" + TypeName(v) + "' object is not iterable"))
  }

  /** `v.get(key, default)` followed by iteration: the children under `key`. */
  function Children(v: JValue, key: string): (r: Result<seq<JValue>, Exception>)
    ensures v.JObj? && key !in v.fields ==> r == Success([])
    ensures v.JObj? && key in v.fields && v.fields[key].JArr? ==> r == Success(v.fields[key].items)
  {
    var c :- Get(v, key, EmptyList);
    Elements(c)
  }

  /** `v.strip()` on a value that should be a string. */
  function StripValue(v: JValue): (r: Result<string, Exception>)
    ensures r.Success? <==> v.JStr?
    ensures v.JStr? ==> r.value == Text.Strip(v.s)
  {
    match v
    case JStr(s) => Success(Text.Strip(s))
    case _ => Failure(AttributeError("'" + TypeName(v) + "' object has no attribute 'strip'"))
  }
}
