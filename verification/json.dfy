/**
 JSON values as Python's `json.loads` returns them, and the Python operations
 the pipeline applies to them: truthiness (`if data:` / `if not data:`), the
 `in` test and `[key]` indexing with a string key, and the scan's acceptance
 test `isinstance(data, dict) and "document_type" in data`.
 */
module JsonValues {
  import opened Text

  datatype Option<+T> = None | Some(value: T)

  /** A JSON value. `JNull` is also Python's `None`: the two are the same value.
      Objects are maps; the insertion order of a Python dict is not tracked. */
  datatype Json =
    | JNull
    | JBool(b: bool)
    | JInt(i: int)
    | JFloat(r: real)
    | JStr(s: string)
    | JArr(elems: seq<Json>)
    | JObj(fields: map<string, Json>)

  /** `json.loads`, left uninterpreted: `None` when it raises. */
  type Parser = string -> Option<Json>

  /** The one value of `j`'s kind that Python treats as false. */
  function FalsyOfKind(j: Json): Json {
    match j
    case JNull => JNull
    case JBool(_) => JBool(false)
    case JInt(_) => JInt(0)
    case JFloat(_) => JFloat(0.0)
    case JStr(_) => JStr([])
    case JArr(_) => JArr([])
    case JObj(_) => JObj(map[])
  }

  /** Python truthiness: `None`, `False`, zero, and empty strings, lists and dicts are false. */
  function Truthy(j: Json): (r: bool)
    ensures r <==> j != FalsyOfKind(j)
  {
    match j
    case JNull => false
    case JBool(b) => b
    case JInt(i) => i != 0
    case JFloat(r) => r != 0.0
    case JStr(s) => |s| > 0
    case JArr(xs) => |xs| > 0
    case JObj(m) => |m| > 0
  }

  /** `isinstance(j, dict) and key in j`. */
  predicate HasKey(j: Json, key: string) {
    j.JObj? && key in j.fields
  }

  /** The scan's acceptance test: a dict with a `document_type` key. */
  predicate IsDocObject(j: Json) {
    HasKey(j, "document_type")
  }

  /** `key in container` for a str key; `None` when Python raises TypeError
      (the container is None, a bool or a number). */
  function Contains(container: Json, key: string): (r: Option<bool>)
    ensures r.None? <==> container.JNull? || container.JBool? || container.JInt? || container.JFloat?
    ensures container.JObj? ==> (r == Some(true) <==> HasKey(container, key))
    ensures container.JArr? ==>
              (r == Some(true) <==> exists k :: 0 <= k < |container.elems| && container.elems[k] == JStr(key))
    ensures container.JStr? ==>
              (r == Some(true) <==> exists i :: OccursAt(key, container.s, i))
  {
    match container
    case JObj(m) => Some(key in m)
    case JArr(xs) => Some(JStr(key) in xs)
    case JStr(s) =>
      IsSubstringAt(key, s);
      Some(IsSubstring(key, s))
    case _ => None
  }

  /** `container[key]` for a str key; `None` when Python raises KeyError or TypeError. */
  function Index(container: Json, key: string): (r: Option<Json>)
    ensures r.Some? <==> HasKey(container, key)
    ensures r.Some? ==> Contains(container, key) == Some(true) && r.value == container.fields[key]
    ensures Contains(container, key) == Some(true) && r.None? ==> container.JArr? || container.JStr?
  {
    if container.JObj? && key in container.fields then Some(container.fields[key]) else None
  }

  /** A candidate text parses to a dict carrying `document_type`. */
  predicate IsDocText(parse: Parser, t: string) {
    parse(t).Some? && IsDocObject(parse(t).value)
  }

  /** Position of the first candidate that parses to a dict with `document_type`. */
  function FirstDocIndex(parse: Parser, cands: seq<string>): (r: Option<nat>)
    ensures r.Some? ==> r.value < |cands| && IsDocText(parse, cands[r.value])
    ensures r.Some? ==> forall j :: 0 <= j < r.value ==> !IsDocText(parse, cands[j])
    ensures r.None? ==> forall j :: 0 <= j < |cands| ==> !IsDocText(parse, cands[j])
    decreases |cands|
  {
    if |cands| == 0 then None
    else if IsDocText(parse, cands[0]) then Some(0)
    else match FirstDocIndex(parse, cands[1..])
      case Some(k) => Some(k + 1)
      case None => None
  }
}
