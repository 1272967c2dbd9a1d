/** JavaScript values as the handlers see them after `express.json()` has parsed a request body. */
module Json {

  /** One JavaScript value. `Undef` is what reading a key that is not there gives. */
  datatype JVal =
    | Undef
    | Null
    | Bool(b: bool)
    | Num(n: real)
    | Str(s: string)
    | Arr(items: seq<JVal>)
    | Obj(fields: map<string, JVal>)

  /** A parsed JSON object: `req.body`, a stored record, the argument of a store call. */
  type Body = map<string, JVal>

  /** `!!v` in JavaScript: undefined, null, false, 0 and "" are falsy, everything else is truthy. */
  predicate Truthy(v: JVal) {
    match v
    case Undef => false
    case Null => false
    case Bool(b) => b
    case Num(n) => n != 0.0
    case Str(s) => s != ""
    case Arr(_) => true
    case Obj(_) => true
  }

  /** `body[key]`, and the value a destructuring `const { key } = body` binds. */
  function Get(body: Body, key: string): JVal {
    if key in body then body[key] else Undef
  }

  /** `a || b`: the first operand when it is truthy, the second otherwise. */
  function Or(a: JVal, b: JVal): (r: JVal)
    ensures Truthy(a) ==> r == a
    ensures !Truthy(a) ==> r == b
  {
    if Truthy(a) then a else b
  }

  /** What an object literal keeps once undefined-valued keys are ignored, as Prisma does with `data`. */
  function Defined(m: Body): (r: Body)
    ensures forall k :: k in r <==> k in m && m[k] != Undef
    ensures forall k :: k in r ==> r[k] == m[k]
  {
    map k | k in m && m[k] != Undef :: m[k]
  }

  /** The object literal `{ k1: body.k1, ..., kn: body.kn }`, with undefined members left out. */
  function Pick(body: Body, keys: set<string>): (r: Body)
    ensures forall k :: k in r <==> k in keys && Get(body, k) != Undef
    ensures forall k :: k in r ==> r[k] == Get(body, k)
  {
    map k | k in keys && k in body && body[k] != Undef :: body[k]
  }

  /** `Number.isInteger(n)` for a finite number. */
  predicate IsInteger(n: real) {
    n.Floor as real == n
  }
}
