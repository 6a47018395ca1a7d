/**
 * The value `json.loads` hands back, as a tagged variant, plus the two Python
 * operations the normaliser applies to it: `dict.get` and `str()`.
 */
module Json {
  import opened Wrappers
  import opened Text

  /**
   * A parsed JSON document. An `Object` keeps its members in document order, as a
   * Python `dict` keeps insertion order. JSON numbers are modelled as integers only.
   */
  datatype Json =
    | Null
    | Bool(b: bool)
    | Num(n: int)
    | Str(s: string)
    | Array(elems: seq<Json>)
    | Object(members: seq<Member>)

  datatype Member = Member(key: string, value: Json)

  /** Python's `key in d` for a dict. */
  predicate HasKey(ms: seq<Member>, key: string) {
    exists k :: 0 <= k < |ms| && ms[k].key == key
  }

  /**
   * Python's `d.get(key)`: the value stored under `key`. The first member with
   * the key is the one found, where `json.loads` would keep the last value of a
   * repeated key.
   */
  function Get(ms: seq<Member>, key: string): (r: Option<Json>)
    ensures r.Some? <==> HasKey(ms, key)
    ensures r.Some? ==> exists k :: 0 <= k < |ms| && ms[k] == Member(key, r.value)
  {
    if |ms| == 0 then None
    else if ms[0].key == key then Some(ms[0].value)
    else
      var r := Get(ms[1..], key);
      assert forall k :: 0 < k < |ms| ==> ms[k] == ms[1..][k - 1];
      assert HasKey(ms, key) ==> HasKey(ms[1..], key) by {
        if HasKey(ms, key) {
          var k :| 0 <= k < |ms| && ms[k].key == key;
          assert ms[1..][k - 1].key == key;
        }
      }
      r
  }

  /** The name of the Python type `json.loads` uses for the value (`type(v).__name__`). */
  function TypeName(v: Json): string {
    match v
    case Null => "NoneType"
    case Bool(_) => "bool"
    case Num(_) => "int"
    case Str(_) => "str"
    case Array(_) => "list"
    case Object(_) => "dict"
  }

  /** `", ".join(parts)`. */
  function Join(parts: seq<string>): string {
    if |parts| == 0 then ""
    else if |parts| == 1 then parts[0]
    else parts[0] + ", " + Join(parts[1..])
  }

  /** Python's `repr` of a string literal (escape sequences inside it are not rendered). */
  function QuoteString(s: string): (r: string)
    ensures |r| == |s| + 2 && r[0] in "'\"" && r[|r| - 1] == r[0] && r[1..|r| - 1] == s
    ensures r[0] == '"' <==> '\'' in s && '"' !in s
  {
    if '\'' in s && '"' !in s then "\"" + s + "\"" else "'" + s + "'"
  }

  /** Python's `repr(v)`: how a value is written inside the rendering of a list or dict. */
  function Repr(v: Json): (r: string)
    ensures |r| > 0
    ensures v.Str? ==> |r| == |v.s| + 2 && r[0] in "'\"" && r[|r| - 1] == r[0] && r[1..|r| - 1] == v.s
    ensures v.Array? ==> r[0] == '[' && r[|r| - 1] == ']'
    ensures v.Object? ==> r[0] == '{' && r[|r| - 1] == '}'
    decreases v
  {
    match v
    case Null => "None"
    case Bool(b) => if b then "True" else "False"
    case Num(n) => IntToDecimal(n)
    case Str(s) => QuoteString(s)
    case Array(es) =>
      "[" + Join(seq(|es|, k requires 0 <= k < |es| => Repr(es[k]))) + "]"
    case Object(ms) =>
      "{" + Join(seq(|ms|, k requires 0 <= k < |ms| =>
                   QuoteString(ms[k].key) + ": " + Repr(ms[k].value))) + "}"
  }

  /** Python's `str(v)`: a string is itself, anything else is its `repr`. */
  function Stringify(v: Json): (r: string)
    ensures v.Str? ==> r == v.s
  {
    if v.Str? then v.s else Repr(v)
  }
}
