/** JavaScript values as the browser scripts see them, restricted to what the
    modelled code inspects: truthiness, `||`, property access with and
    without optional chaining, and the String() coercion that template
    literals and Array.prototype.join apply. */
module JsValues {

  datatype Option<+T> = None | Some(value: T) {
    function GetOr(default: T): T {
      match this
      case Some(v) => v
      case None => default
    }
  }

  /** A JavaScript value. Numbers are integers: the modelled code only handles
      ids, counts and years. An object is the map of its own properties. */
  datatype Js =
    | Undefined
    | Null
    | Bool(b: bool)
    | Num(n: int)
    | Str(s: string)
    | Arr(elems: seq<Js>)
    | Obj(props: map<string, Js>)

  /** ToBoolean: undefined, null, false, 0 and '' are falsy; every array and
      object, even an empty one, is truthy. */
  predicate Truthy(v: Js) {
    match v
    case Undefined => false
    case Null => false
    case Bool(b) => b
    case Num(n) => n != 0
    case Str(s) => s != ""
    case Arr(_) => true
    case Obj(_) => true
  }

  predicate IsNullish(v: Js) {
    v.Undefined? || v.Null?
  }

  /** `a || b` */
  function Or(a: Js, b: Js): Js {
    if Truthy(a) then a else b
  }

  /** `v.name` on a value that is not null or undefined (reading a property of
      those throws; see PropOrThrow). Strings and arrays expose `length`. */
  function Prop(v: Js, name: string): Js {
    match v
    case Obj(m) => if name in m then m[name] else Undefined
    case Str(s) => if name == "length" then Num(|s|) else Undefined
    case Arr(e) => if name == "length" then Num(|e|) else Undefined
    case _ => Undefined
  }

  /** `v.name` where `v` may be null or undefined: None is the TypeError. */
  function PropOrThrow(v: Js, name: string): Option<Js> {
    if IsNullish(v) then None else Some(Prop(v, name))
  }

  /** `v[i]` for a value that is not null or undefined. */
  function Index(v: Js, i: nat): Js {
    match v
    case Arr(e) => if i < |e| then e[i] else Undefined
    case Str(s) => if i < |s| then Str([s[i]]) else Undefined
    case Obj(_) => Prop(v, NatToString(i))
    case _ => Undefined
  }

  /** `v?.[i]` */
  function OptIndex(v: Js, i: nat): Js {
    if IsNullish(v) then Undefined else Index(v, i)
  }

  /** `v?.length` */
  function OptLength(v: Js): Js {
    if IsNullish(v) then Undefined else Prop(v, "length")
  }

  /** `v?.name` */
  function OptProp(v: Js, name: string): Js {
    if IsNullish(v) then Undefined else Prop(v, name)
  }

  /** `typeof v === 'string'` */
  predicate IsString(v: Js) {
    v.Str?
  }

  function DigitChar(d: nat): char
    requires d < 10
  {
    "0123456789"[d]
  }

  /** The decimal numeral of a non-negative integer, as String(n) writes it. */
  function NatToString(n: nat): (r: string)
    ensures |r| > 0 && forall k :: 0 <= k < |r| ==> '0' <= r[k] <= '9'
    ensures r[0] == '0' ==> n == 0
  {
    if n < 10 then [DigitChar(n)] else NatToString(n / 10) + [DigitChar(n % 10)]
  }

  /** String(n) for an integer n. */
  function NumToString(n: int): string {
    if n < 0 then "-" + NatToString(-n) else NatToString(n)
  }

  /** `parts.join(sep)` over strings. */
  function Join(parts: seq<string>, sep: string): string {
    if |parts| == 0 then ""
    else if |parts| == 1 then parts[0]
    else parts[0] + sep + Join(parts[1..], sep)
  }

  /** The piece Array.prototype.join writes for one element: nothing for null
      and undefined, String(v) otherwise. */
  function ElemStr(v: Js): string {
    if IsNullish(v) then "" else ToStr(v)
  }

  /** String(v) */
  function ToStr(v: Js): string {
    match v
    case Undefined => "undefined"
    case Null => "null"
    case Bool(b) => if b then "true" else "false"
    case Num(n) => NumToString(n)
    case Str(s) => s
    case Arr(e) => Join(seq(|e|, i requires 0 <= i < |e| => if IsNullish(e[i]) then "" else ToStr(e[i])), ",")
    case Obj(_) => "[object Object]"
  }

  /** `arr.join(sep)` for an array value. */
  function JoinJs(elems: seq<Js>, sep: string): string {
    Join(seq(|elems|, i requires 0 <= i < |elems| => ElemStr(elems[i])), sep)
  }

  /** JavaScript's `arr.slice(0, limit)`: a negative limit counts from the
      end. */
  function Slice<T>(s: seq<T>, limit: int): (r: seq<T>)
    ensures |r| <= |s| && r == s[..|r|]
    ensures limit >= 0 ==> |r| == if limit < |s| then limit else |s|
    ensures limit < 0 ==> |r| == if |s| + limit > 0 then |s| + limit else 0
  {
    if limit >= 0 then (if limit < |s| then s[..limit] else s)
    else if |s| + limit > 0 then s[..|s| + limit] else []
  }

  /** The names of Object.prototype's own properties. On a plain object
      `{}`, `obj[k]` for such a `k` reads the inherited value, which is
      truthy and is neither an array nor spreadable: a plain object used as
      a dictionary then misbehaves for that key. */
  const ObjectPrototypeNames: set<string> := {"constructor", "hasOwnProperty", "isPrototypeOf",
    "propertyIsEnumerable", "toLocaleString", "toString", "valueOf", "__proto__",
    "__defineGetter__", "__defineSetter__", "__lookupGetter__", "__lookupSetter__"}
}
