/**
 * The slice of JavaScript value semantics that the server's route handlers
 * and the client's form logic rely on: which values are truthy, what `a || b`
 * yields, property lookup with `undefined` for a missing key, and the string
 * conversion used by template literals and by `FormData.append`.
 */
module Js {
  import Decimal

  /**
   * A JavaScript value as it travels through the handlers. Numbers are
   * integers here: floating point and NaN are not part of this model.
   * `File` stands for a browser `File`/`Blob` object, known by its name.
   */
  datatype JsValue =
    | Undefined
    | Null
    | Bool(b: bool)
    | Num(n: int)
    | Str(s: string)
    | File(name: string)
    | Obj(fields: map<string, JsValue>)

  /** A plain JavaScript object: its own enumerable properties. */
  type Object = map<string, JsValue>

  /** JavaScript truthiness: `undefined`, `null`, `false`, `0` and `""` are falsy. */
  predicate Truthy(v: JsValue)
    ensures Truthy(v) <==> v !in {Undefined, Null, Bool(false), Num(0), Str("")}
  {
    match v
    case Undefined => false
    case Null => false
    case Bool(b) => b
    case Num(n) => n != 0
    case Str(s) => s != ""
    case File(_) => true
    case Obj(_) => true
  }

  /** `a || b`: the left operand when it is truthy, the right one otherwise. */
  function Or(a: JsValue, b: JsValue): (r: JsValue)
    ensures r == a || r == b
    ensures Truthy(r) <==> Truthy(a) || Truthy(b)
    ensures Truthy(a) ==> r == a
    ensures !Truthy(a) ==> r == b
  {
    if Truthy(a) then a else b
  }

  /** `o[k]` on an object: `undefined` when the key is missing. */
  function Get(o: Object, k: string): JsValue
  {
    if k in o then o[k] else Undefined
  }

  /** `v.k` for any value: only objects carry properties in this model. */
  function Prop(v: JsValue, k: string): JsValue
  {
    if v.Obj? then Get(v.fields, k) else Undefined
  }

  /** `String(v)`, as a template literal or `FormData.append` converts a value. */
  function ToString(v: JsValue): string
  {
    match v
    case Undefined => "undefined"
    case Null => "null"
    case Bool(b) => if b then "true" else "false"
    case Num(n) => if n < 0 then "-" + Decimal.Format(-n) else Decimal.Format(n)
    case Str(s) => s
    case File(_) => "[object File]"
    case Obj(_) => "[object Object]"
  }

  /** One entry of a multipart form, as `FormData` collects it and multer receives it. */
  datatype Part =
    | TextField(name: string, value: string)
    | FileField(name: string, fileName: string)

  /**
   * `formData.append(name, v)`: a `File` travels as a file part; any other
   * value is converted to its string form (so `null` becomes the text "null").
   */
  function AppendPart(name: string, v: JsValue): (p: Part)
    ensures p.name == name
    ensures p.FileField? <==> v.File?
    ensures p.FileField? ==> p.fileName == v.name
    ensures p.TextField? ==> p.value == ToString(v)
  {
    if v.File? then FileField(name, v.name) else TextField(name, ToString(v))
  }

  /** The three conversions the PUT fallback rule hinges on. */
  lemma FalsyAndTruthyStrings()
    ensures !Truthy(Str("")) && !Truthy(Num(0)) && !Truthy(Undefined) && !Truthy(Null)
    ensures Truthy(Str("0")) && Truthy(Str("false"))
  {
  }
}
