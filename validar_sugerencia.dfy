/** The middleware that screens a suggestion body before it is created. */
module ValidarSugerencia {
  import opened Wrappers
  import opened Json
  import opened Http
  import opened JsString
  import opened Checks

  const RequiredFields: seq<string> := ["nombre", "direccion", "descripcion"]

  /** `if (!nombre?.trim()) ... if (!descripcion?.trim())`, in this order. */
  const RequiredChecks: seq<Check> := [Trimmed("nombre"), Trimmed("direccion"), Trimmed("descripcion")]

  /** The optional strings, `imagenes` and `estado`, in this order. */
  const TypeChecks: seq<Check> := [
    StringIfPresent("telefonoRestaurante"), StringIfPresent("emailRestaurante"),
    ArrayIfPresent("imagenes"), StringsIfPresent("imagenes"), StringIfPresent("estado")
  ]

  /** Every check, in the order the middleware runs them: only the 14 amenities are flags here. */
  const Rules: seq<Check> := RequiredChecks + TypeChecks + BooleanChecks(Amenities)

  /** The required-field guards. A field that is neither a string nor undefined/null has no
      `trim` to call: the `TypeError` leaves the middleware and the application's error handler
      answers. */
  function CheckRequired(body: Body): (v: Verdict)
    ensures Follows(body, RequiredChecks, v)
  {
    var nombre := OptionalTrim(Get(body, "nombre"));
    var direccion := OptionalTrim(Get(body, "direccion"));
    var descripcion := OptionalTrim(Get(body, "descripcion"));
    if nombre.None? then
      Reported(body, RequiredChecks, 0);
      Reject(Uncaught)
    else if !Truthy(nombre.value) then
      Reported(body, RequiredChecks, 0);
      Reject(ErrorReply(400, RequiredMessage("nombre")))
    else if direccion.None? then
      Reported(body, RequiredChecks, 1);
      Reject(Uncaught)
    else if !Truthy(direccion.value) then
      Reported(body, RequiredChecks, 1);
      Reject(ErrorReply(400, RequiredMessage("direccion")))
    else if descripcion.None? then
      Reported(body, RequiredChecks, 2);
      Reject(Uncaught)
    else if !Truthy(descripcion.value) then
      Reported(body, RequiredChecks, 2);
      Reject(ErrorReply(400, RequiredMessage("descripcion")))
    else
      Next
  }

  /** The type guards on the optional fields. */
  function CheckTypes(body: Body): (v: Verdict)
    ensures Follows(body, TypeChecks, v)
  {
    var telefono := Get(body, "telefonoRestaurante");
    var email := Get(body, "emailRestaurante");
    var imagenes := Get(body, "imagenes");
    var estado := Get(body, "estado");
    if Truthy(telefono) && !telefono.Str? then
      Reported(body, TypeChecks, 0);
      Reject(ErrorReply(400, StringMessage("telefonoRestaurante")))
    else if Truthy(email) && !email.Str? then
      Reported(body, TypeChecks, 1);
      Reject(ErrorReply(400, StringMessage("emailRestaurante")))
    else if Truthy(imagenes) && !imagenes.Arr? then
      Reported(body, TypeChecks, 2);
      Reject(ErrorReply(400, ArrayMessage("imagenes")))
    else if Truthy(imagenes) && SomeNotString(imagenes.items) then
      Reported(body, TypeChecks, 3);
      Reject(ErrorReply(400, StringsMessage))
    else if Truthy(estado) && !estado.Str? then
      Reported(body, TypeChecks, 4);
      Reject(ErrorReply(400, StringMessage("estado")))
    else
      Next
  }

  /** The middleware: the guards, then the loop over the amenity flags; `Next` is the one call to
      `next()`, and the body is left as it came. */
  method Validar(body: Body) returns (v: Verdict)
    ensures Follows(body, Rules, v)
  {
    var required := CheckRequired(body);
    if required.Reject? {
      Then3(body, RequiredChecks, TypeChecks, BooleanChecks(Amenities), required, Next, Next);
      return required;
    }
    var types := CheckTypes(body);
    if types.Reject? {
      Then3(body, RequiredChecks, TypeChecks, BooleanChecks(Amenities), required, types, Next);
      return types;
    }
    var bad := FirstNonBoolean(body, Amenities);
    FlagsFollow(body, Amenities, bad);
    if bad.Some? {
      v := Reject(ErrorReply(400, BooleanMessage(Amenities[bad.value])));
    } else {
      v := Next;
    }
    Then3(body, RequiredChecks, TypeChecks, BooleanChecks(Amenities), required, types, v);
  }

  /** Where each check sits in `Rules`. */
  lemma {:induction false} RuleAt(i: nat)
    requires i < 22
    ensures |Rules| == 22
    ensures i < 3 ==> Rules[i] == RequiredChecks[i]
    ensures 3 <= i < 8 ==> Rules[i] == TypeChecks[i - 3]
    ensures 8 <= i ==> Rules[i] == BooleanIfPresent(Amenities[i - 8])
  {
    assert Rules == (RequiredChecks + TypeChecks) + BooleanChecks(Amenities);
    if i < 8 {
      assert Rules[i] == (RequiredChecks + TypeChecks)[i];
    }
  }

  /** A required field is missing for this validator when it is absent, null, or a string of
      white space only. */
  predicate Missing(v: JVal) {
    v == Undef || v == Null || (v.Str? && Blank(v.s))
  }

  /** The trimmed required fields are checked in order, and white space alone counts as missing. */
  lemma {:induction false} FirstMissingFieldReported(body: Body, k: nat, v: Verdict)
    requires Follows(body, Rules, v)
    requires k < |RequiredFields| && Missing(Get(body, RequiredFields[k]))
    requires forall j | 0 <= j < k :: Get(body, RequiredFields[j]).Str? && !Blank(Get(body, RequiredFields[j]).s)
    ensures v == Reject(ErrorReply(400, RequiredMessage(RequiredFields[k])))
  {
    forall j | 0 <= j <= k && Get(body, RequiredFields[j]).Str?
      ensures Trim(Get(body, RequiredFields[j]).s) == "" <==> Blank(Get(body, RequiredFields[j]).s)
    {
      TrimEmptyIffBlank(Get(body, RequiredFields[j]).s);
    }
    assert forall j | 0 <= j < 3 :: RequiredChecks[j] == Trimmed(RequiredFields[j]);
    assert FirstFailure(body, RequiredChecks, k);
    FailureInFront(body, RequiredChecks, TypeChecks, k);
    FailureInFront(body, RequiredChecks + TypeChecks, BooleanChecks(Amenities), k);
    AnswerAt(body, Rules, k, v);
  }

  /** A required field holding a number, a boolean, an array or an object makes the request end in
      the application's 500 reply instead of a 400. */
  lemma {:induction false} NonStringNameIsServerError(body: Body, v: Verdict)
    requires Follows(body, Rules, v)
    requires var n := Get(body, "nombre"); n.Num? || n.Bool? || n.Arr? || n.Obj?
    ensures v == Reject(Uncaught)
  {
    RuleAt(0);
    assert FirstFailure(body, Rules, 0);
    AnswerAt(body, Rules, 0, v);
  }

  /** `imagenes`, once the required fields and the optional strings are fine: a truthy non-array
      gets the array message, an array holding a non-string gets the element message. */
  lemma {:induction false} ImagesReported(body: Body, v: Verdict)
    requires Follows(body, Rules, v)
    requires AllPass(body, RequiredChecks)
    requires forall j | 0 <= j < 2 :: Run(body, TypeChecks[j]) == Pass
    requires Truthy(Get(body, "imagenes"))
    ensures !Get(body, "imagenes").Arr? ==> v == Reject(ErrorReply(400, ArrayMessage("imagenes")))
    ensures Get(body, "imagenes").Arr? && SomeNotString(Get(body, "imagenes").items) ==>
              v == Reject(ErrorReply(400, StringsMessage))
  {
    forall j | 0 <= j < 8
      ensures j < 3 ==> Rules[j] == RequiredChecks[j]
      ensures 3 <= j ==> Rules[j] == TypeChecks[j - 3]
    {
      RuleAt(j);
    }
    if !Get(body, "imagenes").Arr? {
      assert FirstFailure(body, Rules, 5);
      AnswerAt(body, Rules, 5, v);
    } else if SomeNotString(Get(body, "imagenes").items) {
      assert FirstFailure(body, Rules, 6);
      AnswerAt(body, Rules, 6, v);
    }
  }

  /** A truthy `estado` that is not a string is rejected, once everything before it is fine. */
  lemma {:induction false} EstadoReported(body: Body, v: Verdict)
    requires Follows(body, Rules, v)
    requires AllPass(body, RequiredChecks)
    requires forall j | 0 <= j < 4 :: Run(body, TypeChecks[j]) == Pass
    requires Truthy(Get(body, "estado")) && !Get(body, "estado").Str?
    ensures v == Reject(ErrorReply(400, StringMessage("estado")))
  {
    forall j | 0 <= j < 8
      ensures j < 3 ==> Rules[j] == RequiredChecks[j]
      ensures 3 <= j ==> Rules[j] == TypeChecks[j - 3]
    {
      RuleAt(j);
    }
    assert FirstFailure(body, Rules, 7);
    AnswerAt(body, Rules, 7, v);
  }

  /** Fields this validator never reads: the location, the contact name and the two status flags. */
  const Unchecked: set<string> := {"ciudad", "provincia", "localidad", "nombreContacto", "activo", "verificado"}

  lemma {:induction false} UncheckedAreNotRead(k: string)
    requires k in Unchecked
    ensures forall i | 0 <= i < |Rules| :: Rules[i].field != k
  {
    assert k !in Amenities;
    forall i | 0 <= i < |Rules|
      ensures Rules[i].field != k
    {
      RuleAt(i);
      if 8 <= i {
        assert Amenities[i - 8] in Amenities;
      }
    }
  }

  lemma {:induction false} UncheckedFieldsIgnored(body: Body, k: string, x: JVal, v: Verdict)
    requires k in Unchecked
    requires Follows(body, Rules, v)
    ensures Follows(body[k := x], Rules, v)
  {
    UncheckedAreNotRead(k);
    UncheckedFieldIrrelevant(body, Rules, k, x, v);
  }
}
