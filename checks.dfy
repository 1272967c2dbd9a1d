/** The checks the two body validators run, as data: each validator is an ordered list of checks,
    and its answer is the first check that does not pass. */
module Checks {
  import opened Wrappers
  import opened Json
  import opened Http
  import opened JsString

  /** The 14 amenity flags, in the order both validators list them. */
  const Amenities: seq<string> := [
    "zonaAmplia", "parqueCercano", "zonaInfantil", "menuInfantil", "tronaDisponible",
    "cambiadorDisponible", "sitioParaCarrito", "terrazaSegura", "ambienteFamiliar",
    "sinPantallas", "aptoVegetariano", "aptoVegano", "actividadesParaNinos", "accesibleConCarrito"
  ]

  datatype Check =
    | Required(field: string)          // `if (!v)`
    | Trimmed(field: string)           // `if (!v?.trim())`
    | StringIfPresent(field: string)   // `if (v && typeof v !== "string")`
    | ArrayIfPresent(field: string)    // `if (v && !Array.isArray(v))`
    | StringsIfPresent(field: string)  // `if (v) ... v.some((x) => typeof x !== "string")`
    | BooleanIfPresent(field: string)  // defined, not a boolean, and neither "true" nor "false"

  /** A check passes, fails (the validator answers 400), or throws (a `TypeError` the application's
      error handler answers with 500). */
  datatype Outcome = Pass | Fail | Throws

  /** What the boolean check accepts: nothing, a boolean, or the strings "true" and "false". */
  predicate BooleanLike(v: JVal) {
    v == Undef || v.Bool? || v == Str("true") || v == Str("false")
  }

  /** `items.some((x) => typeof x !== "string")` */
  predicate SomeNotString(items: seq<JVal>) {
    exists i | 0 <= i < |items| :: !items[i].Str?
  }

  /** `v?.trim()`: undefined for undefined and null, the trimmed text for a string, and `None`
      where the call throws a `TypeError` (any other value has no callable `trim`). */
  function OptionalTrim(v: JVal): (r: Option<JVal>)
    ensures r.None? <==> v != Undef && v != Null && !v.Str?
    ensures r == Some(Undef) <==> v == Undef || v == Null
  {
    if v == Undef || v == Null then Some(Undef)
    else if v.Str? then Some(Str(Trim(v.s)))
    else None
  }

  function Run(body: Body, c: Check): Outcome {
    var v := Get(body, c.field);
    match c
    case Required(_) => if Truthy(v) then Pass else Fail
    case Trimmed(_) =>
      var t := OptionalTrim(v);
      if t.None? then Throws else if Truthy(t.value) then Pass else Fail
    case StringIfPresent(_) => if Truthy(v) && !v.Str? then Fail else Pass
    case ArrayIfPresent(_) => if Truthy(v) && !v.Arr? then Fail else Pass
    case StringsIfPresent(_) =>
      if !Truthy(v) then Pass
      else if !v.Arr? then Throws
      else if SomeNotString(v.items) then Fail
      else Pass
    case BooleanIfPresent(_) => if BooleanLike(v) then Pass else Fail
  }

  function RequiredMessage(f: string): string {
    "El campo '" + f + "' es obligatorio"
  }

  function StringMessage(f: string): string {
    "El campo '" + f + "' debe ser string"
  }

  function ArrayMessage(f: string): string {
    "El campo '" + f + "' debe ser un arreglo de strings"
  }

  const StringsMessage: string := "Todas las imágenes deben ser strings"

  function BooleanMessage(f: string): string {
    "El campo '" + f + "' debe ser booleano o 'true'/'false' como string"
  }

  function Message(c: Check): string {
    match c
    case Required(f) => RequiredMessage(f)
    case Trimmed(f) => RequiredMessage(f)
    case StringIfPresent(f) => StringMessage(f)
    case ArrayIfPresent(f) => ArrayMessage(f)
    case StringsIfPresent(_) => StringsMessage
    case BooleanIfPresent(f) => BooleanMessage(f)
  }

  /** The reply to a body that does not pass `c`. */
  function Answer(body: Body, c: Check): Reply {
    if Run(body, c) == Throws then Uncaught else ErrorReply(400, Message(c))
  }

  /** One boolean check per field, in the fields' order. */
  function BooleanChecks(fields: seq<string>): (cs: seq<Check>)
    ensures |cs| == |fields|
    ensures forall i | 0 <= i < |fields| :: cs[i] == BooleanIfPresent(fields[i])
  {
    seq(|fields|, i requires 0 <= i < |fields| => BooleanIfPresent(fields[i]))
  }

  predicate AllPass(body: Body, cs: seq<Check>) {
    forall i | 0 <= i < |cs| :: Run(body, cs[i]) == Pass
  }

  /** `cs[i]` is the first check of `cs` that `body` does not pass. */
  predicate FirstFailure(body: Body, cs: seq<Check>, i: int) {
    && 0 <= i < |cs|
    && Run(body, cs[i]) != Pass
    && forall j | 0 <= j < i :: Run(body, cs[j]) == Pass
  }

  /** What a validator running `cs` must do with `body`: call `next()` when every check passes,
      otherwise answer for the first check that does not. */
  predicate Follows(body: Body, cs: seq<Check>, v: Verdict) {
    if AllPass(body, cs) then v == Next
    else exists i | 0 <= i < |cs| :: FirstFailure(body, cs, i) && v == Reject(Answer(body, cs[i]))
  }

  /** Only one check can be the first to fail. */
  lemma {:induction false} FirstFailureUnique(body: Body, cs: seq<Check>, i: int, j: int)
    requires FirstFailure(body, cs, i) && FirstFailure(body, cs, j)
    ensures i == j
  {
  }

  /** A list of checks determines the validator's answer for every body. */
  lemma {:induction false} FollowsDeterministic(body: Body, cs: seq<Check>, v: Verdict, w: Verdict)
    requires Follows(body, cs, v) && Follows(body, cs, w)
    ensures v == w
  {
    if !AllPass(body, cs) {
      var i :| 0 <= i < |cs| && FirstFailure(body, cs, i) && v == Reject(Answer(body, cs[i]));
      var j :| 0 <= j < |cs| && FirstFailure(body, cs, j) && w == Reject(Answer(body, cs[j]));
      FirstFailureUnique(body, cs, i, j);
    }
  }

  /** When `cs[k]` does not pass and every earlier check does, the answer is `cs[k]`'s. */
  lemma {:induction false} AnswerAt(body: Body, cs: seq<Check>, k: int, v: Verdict)
    requires Follows(body, cs, v)
    requires FirstFailure(body, cs, k)
    ensures v == Reject(Answer(body, cs[k]))
  {
    assert !AllPass(body, cs);
    var i :| 0 <= i < |cs| && FirstFailure(body, cs, i) && v == Reject(Answer(body, cs[i]));
    FirstFailureUnique(body, cs, i, k);
  }

  /** When some check among the first `n` fails, the answer comes from one of the first `n`. */
  lemma {:induction false} AnswerWithin(body: Body, cs: seq<Check>, n: int, v: Verdict)
    requires Follows(body, cs, v)
    requires 0 <= n <= |cs|
    requires exists k | 0 <= k < n :: Run(body, cs[k]) != Pass
    ensures exists i | 0 <= i < n :: v == Reject(Answer(body, cs[i]))
  {
    var k :| 0 <= k < n && Run(body, cs[k]) != Pass;
    assert !AllPass(body, cs);
    var i :| 0 <= i < |cs| && FirstFailure(body, cs, i) && v == Reject(Answer(body, cs[i]));
  }

  /** Answering for the first failing check is what `Follows` asks. */
  lemma {:induction false} Reported(body: Body, cs: seq<Check>, i: int)
    requires FirstFailure(body, cs, i)
    ensures Follows(body, cs, Reject(Answer(body, cs[i])))
  {
    assert !AllPass(body, cs);
  }

  /** A first failure among the leading checks stays the first failure when more checks follow. */
  lemma {:induction false} FailureInFront(body: Body, a: seq<Check>, b: seq<Check>, i: int)
    requires FirstFailure(body, a, i)
    ensures FirstFailure(body, a + b, i) && (a + b)[i] == a[i]
  {
    assert forall j | 0 <= j < i :: (a + b)[j] == a[j];
  }

  /** When the leading checks all pass, the first failure of the trailing ones is the first overall. */
  lemma {:induction false} FailureBehind(body: Body, a: seq<Check>, b: seq<Check>, k: int)
    requires AllPass(body, a) && FirstFailure(body, b, k)
    ensures FirstFailure(body, a + b, |a| + k) && (a + b)[|a| + k] == b[k]
  {
    forall j | 0 <= j < |a| + k
      ensures Run(body, (a + b)[j]) == Pass
    {
      if j < |a| {
        assert (a + b)[j] == a[j];
      } else {
        assert (a + b)[j] == b[j - |a|];
      }
    }
  }

  lemma {:induction false} BothPass(body: Body, a: seq<Check>, b: seq<Check>)
    requires AllPass(body, a) && AllPass(body, b)
    ensures AllPass(body, a + b)
  {
    forall j | 0 <= j < |a + b|
      ensures Run(body, (a + b)[j]) == Pass
    {
      if j < |a| {
        assert (a + b)[j] == a[j];
      } else {
        assert (a + b)[j] == b[j - |a|];
      }
    }
  }

  /** Running `a` and then, when `a` lets the body through, `b`, is running `a + b`. */
  lemma {:induction false} Then(body: Body, a: seq<Check>, b: seq<Check>, va: Verdict, vb: Verdict)
    requires Follows(body, a, va)
    requires va.Next? ==> Follows(body, b, vb)
    ensures Follows(body, a + b, if va.Next? then vb else va)
  {
    if !AllPass(body, a) {
      var i :| 0 <= i < |a| && FirstFailure(body, a, i) && va == Reject(Answer(body, a[i]));
      FailureInFront(body, a, b, i);
      Reported(body, a + b, i);
    } else if AllPass(body, b) {
      BothPass(body, a, b);
    } else {
      var k :| 0 <= k < |b| && FirstFailure(body, b, k) && vb == Reject(Answer(body, b[k]));
      FailureBehind(body, a, b, k);
      Reported(body, a + b, |a| + k);
    }
  }

  /** The same for three lists run one after the other. */
  lemma {:induction false} Then3(body: Body, a: seq<Check>, b: seq<Check>, c: seq<Check>, va: Verdict, vb: Verdict, vc: Verdict)
    requires Follows(body, a, va)
    requires va.Next? ==> Follows(body, b, vb)
    requires va.Next? && vb.Next? ==> Follows(body, c, vc)
    ensures Follows(body, a + b + c, if va.Reject? then va else if vb.Reject? then vb else vc)
  {
    Then(body, a, b, va, vb);
    Then(body, a + b, c, if va.Next? then vb else va, vc);
  }

  /** What `FirstNonBoolean` finds decides the boolean checks: `Next` when it finds nothing, the
      message naming the field it found otherwise. */
  lemma {:induction false} FlagsFollow(body: Body, fields: seq<string>, r: Option<nat>)
    requires r.None? ==> forall i | 0 <= i < |fields| :: BooleanLike(Get(body, fields[i]))
    requires r.Some? ==> && r.value < |fields|
                         && !BooleanLike(Get(body, fields[r.value]))
                         && forall j | 0 <= j < r.value :: BooleanLike(Get(body, fields[j]))
    ensures r.None? ==> Follows(body, BooleanChecks(fields), Next)
    ensures r.Some? ==> Follows(body, BooleanChecks(fields), Reject(ErrorReply(400, BooleanMessage(fields[r.value]))))
  {
    if r.Some? {
      assert FirstFailure(body, BooleanChecks(fields), r.value);
      Reported(body, BooleanChecks(fields), r.value);
    }
  }

  /** A field no check reads can take any value without changing the answer. */
  lemma {:induction false} UncheckedFieldIrrelevant(body: Body, cs: seq<Check>, k: string, x: JVal, v: Verdict)
    requires forall i | 0 <= i < |cs| :: cs[i].field != k
    requires Follows(body, cs, v)
    ensures Follows(body[k := x], cs, v)
  {
    var body' := body[k := x];
    forall i | 0 <= i < |cs|
      ensures Run(body', cs[i]) == Run(body, cs[i]) && Answer(body', cs[i]) == Answer(body, cs[i])
    {
      assert Get(body', cs[i].field) == Get(body, cs[i].field);
    }
    if !AllPass(body, cs) {
      var i :| 0 <= i < |cs| && FirstFailure(body, cs, i) && v == Reject(Answer(body, cs[i]));
      assert FirstFailure(body', cs, i);
    }
  }

  /** `for (const field of fields) if (<not boolean-like>) return ...`: the index of the first
      field whose value the boolean check rejects, or `None` when every field passes. */
  method FirstNonBoolean(body: Body, fields: seq<string>) returns (r: Option<nat>)
    ensures r.None? <==> forall i | 0 <= i < |fields| :: BooleanLike(Get(body, fields[i]))
    ensures r.Some? ==> && r.value < |fields|
                        && !BooleanLike(Get(body, fields[r.value]))
                        && forall j | 0 <= j < r.value :: BooleanLike(Get(body, fields[j]))
  {
    var i := 0;
    while i < |fields|
      invariant 0 <= i <= |fields|
      invariant forall j | 0 <= j < i :: BooleanLike(Get(body, fields[j]))
    {
      var v := Get(body, fields[i]);
      if v != Undef && !v.Bool? && v != Str("true") && v != Str("false") {
        return Some(i);
      }
      i := i + 1;
    }
    r := None;
  }
}
