/**
 * `JSON.stringify(v)` without a replacer, indentation or `toJSON` methods. The modelled
 * code uses it to compare values and to render canonical values as text.
 */
module JsJson {
  import opened Wrappers
  import opened Errors
  import opened JsText
  import opened JsValue

  /** `parts.join(sep)`. */
  function Join(parts: seq<string>, sep: string): string
  {
    if parts == [] then ""
    else if |parts| == 1 then parts[0]
    else parts[0] + sep + Join(parts[1..], sep)
  }

  /**
   * JSON text of `v`, or None where JSON.stringify returns undefined (undefined, a function or
   * a symbol at the top level). Non-finite numbers become `null`, -0 becomes `0`, a BigInt throws.
   */
  function JsonStringify(v: Value): (r: Result<Option<string>, Error>)
    ensures r.Ok? && r.value.None? <==> v.Undef? || v.Func? || v.Sym?
    decreases v, 1
  {
    match v
    case Undef => Ok(None)
    case Func(_) => Ok(None)
    case Sym(_) => Ok(None)
    case Null => Ok(Some("null"))
    case Bool(b) => Ok(Some(if b then "true" else "false"))
    case Num(n) => Ok(Some(if n.IsFinite() then NumberToString(n) else "null"))
    case Str(s) => Ok(Some(JsonQuote(s)))
    case BigInt(_) => Err(TypeError("Do not know how to serialize a BigInt"))
    case Arr(items) =>
      var parts :- JsonItems(items);
      Ok(Some("[" + Join(parts, ",") + "]"))
    case Obj(fs) =>
      var parts :- JsonMembers(fs);
      Ok(Some("{" + Join(parts, ",") + "}"))
    case Foreign(fs) =>
      var parts :- JsonMembers(fs);
      Ok(Some("{" + Join(parts, ",") + "}"))
  }

  /** Array elements: those without a JSON form are written `null`. */
  function JsonItems(items: seq<Value>): (r: Result<seq<string>, Error>)
    ensures r.Ok? ==> |r.value| == |items|
    decreases items, 0
  {
    if items == [] then Ok([])
    else
      var first :- JsonStringify(items[0]);
      var rest :- JsonItems(items[1..]);
      Ok([match first case Some(s) => s case None => "null"] + rest)
  }

  /** Object members in insertion order: those without a JSON form are left out. */
  function JsonMembers(fs: seq<Member>): (r: Result<seq<string>, Error>)
    ensures r.Ok? ==> |r.value| <= |fs|
    decreases fs, 0
  {
    if fs == [] then Ok([])
    else
      var first :- JsonStringify(fs[0].val);
      var rest :- JsonMembers(fs[1..]);
      match first
      case Some(s) => Ok([JsonQuote(fs[0].key) + ":" + s] + rest)
      case None => Ok(rest)
  }
}
