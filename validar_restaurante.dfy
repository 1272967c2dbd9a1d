/** The middleware that screens a restaurant body before it is created or updated. */
module ValidarRestaurante {
  import opened Wrappers
  import opened Json
  import opened Http
  import opened Checks

  const RequiredFields: seq<string> := ["nombre", "direccion", "ciudad", "provincia", "descripcion"]

  /** `if (!nombre) ... if (!descripcion)`, in this order. */
  const RequiredChecks: seq<Check> := [
    Required("nombre"), Required("direccion"), Required("ciudad"), Required("provincia"),
    Required("descripcion")
  ]

  /** The optional strings and `imagenes`, in this order. */
  const TypeChecks: seq<Check> := [
    StringIfPresent("telefonoRestaurante"), StringIfPresent("emailRestaurante"),
    ArrayIfPresent("imagenes")
  ]

  /** The 14 amenities, then the two status flags. */
  const BooleanFields: seq<string> := Amenities + ["activo", "verificado"]

  /** Every check, in the order the middleware runs them. */
  const Rules: seq<Check> := RequiredChecks + TypeChecks + BooleanChecks(BooleanFields)

  /** The required-field guards: any falsy value counts as missing. */
  function CheckRequired(body: Body): (v: Verdict)
    ensures Follows(body, RequiredChecks, v)
  {
    if !Truthy(Get(body, "nombre")) then
      Reported(body, RequiredChecks, 0);
      Reject(ErrorReply(400, RequiredMessage("nombre")))
    else if !Truthy(Get(body, "direccion")) then
      Reported(body, RequiredChecks, 1);
      Reject(ErrorReply(400, RequiredMessage("direccion")))
    else if !Truthy(Get(body, "ciudad")) then
      Reported(body, RequiredChecks, 2);
      Reject(ErrorReply(400, RequiredMessage("ciudad")))
    else if !Truthy(Get(body, "provincia")) then
      Reported(body, RequiredChecks, 3);
      Reject(ErrorReply(400, RequiredMessage("provincia")))
    else if !Truthy(Get(body, "descripcion")) then
      Reported(body, RequiredChecks, 4);
      Reject(ErrorReply(400, RequiredMessage("descripcion")))
    else
      Next
  }

  /** The type guards on the optional fields: only a truthy value is looked at, and `imagenes`
      need only be an array. */
  function CheckTypes(body: Body): (v: Verdict)
    ensures Follows(body, TypeChecks, v)
  {
    var telefono := Get(body, "telefonoRestaurante");
    var email := Get(body, "emailRestaurante");
    var imagenes := Get(body, "imagenes");
    if Truthy(telefono) && !telefono.Str? then
      Reported(body, TypeChecks, 0);
      Reject(ErrorReply(400, StringMessage("telefonoRestaurante")))
    else if Truthy(email) && !email.Str? then
      Reported(body, TypeChecks, 1);
      Reject(ErrorReply(400, StringMessage("emailRestaurante")))
    else if Truthy(imagenes) && !imagenes.Arr? then
      Reported(body, TypeChecks, 2);
      Reject(ErrorReply(400, ArrayMessage("imagenes")))
    else
      Next
  }

  /** The middleware: the guards, then the loop over the boolean fields; `Next` is the one call
      to `next()`, and the body is left as it came. */
  method Validar(body: Body) returns (v: Verdict)
    ensures Follows(body, Rules, v)
  {
    var required := CheckRequired(body);
    if required.Reject? {
      Then3(body, RequiredChecks, TypeChecks, BooleanChecks(BooleanFields), required, Next, Next);
      return required;
    }
    var types := CheckTypes(body);
    if types.Reject? {
      Then3(body, RequiredChecks, TypeChecks, BooleanChecks(BooleanFields), required, types, Next);
      return types;
    }
    var bad := FirstNonBoolean(body, BooleanFields);
    FlagsFollow(body, BooleanFields, bad);
    if bad.Some? {
      v := Reject(ErrorReply(400, BooleanMessage(BooleanFields[bad.value])));
    } else {
      v := Next;
    }
    Then3(body, RequiredChecks, TypeChecks, BooleanChecks(BooleanFields), required, types, v);
  }

  /** Where each check sits in `Rules`. */
  lemma {:induction false} RuleAt(i: nat)
    requires i < 24
    ensures |Rules| == 24
    ensures i < 5 ==> Rules[i] == RequiredChecks[i]
    ensures 5 <= i < 8 ==> Rules[i] == TypeChecks[i - 5]
    ensures 8 <= i ==> Rules[i] == BooleanIfPresent(BooleanFields[i - 8])
  {
    assert Rules == (RequiredChecks + TypeChecks) + BooleanChecks(BooleanFields);
    if i < 8 {
      assert Rules[i] == (RequiredChecks + TypeChecks)[i];
    }
  }

  /** The required fields are checked in order: the first falsy one is the one reported, whatever
      the rest of the body holds. */
  lemma {:induction false} FirstMissingFieldReported(body: Body, k: nat, v: Verdict)
    requires Follows(body, Rules, v)
    requires k < |RequiredFields| && !Truthy(Get(body, RequiredFields[k]))
    requires forall j | 0 <= j < k :: Truthy(Get(body, RequiredFields[j]))
    ensures v == Reject(ErrorReply(400, RequiredMessage(RequiredFields[k])))
  {
    assert forall j | 0 <= j < 5 :: RequiredChecks[j] == Required(RequiredFields[j]);
    assert FirstFailure(body, RequiredChecks, k);
    FailureInFront(body, RequiredChecks, TypeChecks, k);
    FailureInFront(body, RequiredChecks + TypeChecks, BooleanChecks(BooleanFields), k);
    AnswerAt(body, Rules, k, v);
  }

  /** Any missing required field takes precedence over every type error. */
  lemma {:induction false} MissingFieldBeatsTypeErrors(body: Body, v: Verdict)
    requires Follows(body, Rules, v)
    requires exists f | f in RequiredFields :: !Truthy(Get(body, f))
    ensures exists f | f in RequiredFields :: v == Reject(ErrorReply(400, RequiredMessage(f)))
  {
    var f :| f in RequiredFields && !Truthy(Get(body, f));
    var k :| 0 <= k < 5 && RequiredFields[k] == f;
    forall j | 0 <= j < 5
      ensures Rules[j] == Required(RequiredFields[j])
    {
      RuleAt(j);
    }
    AnswerWithin(body, Rules, 5, v);
    var i :| 0 <= i < 5 && v == Reject(Answer(body, Rules[i]));
    assert v == Reject(ErrorReply(400, RequiredMessage(RequiredFields[i])));
  }

  /** The phone guard answers exactly when the five required fields are present and the phone is
      truthy and not a string; the e-mail guard exactly when, in addition, the phone is fine and
      the e-mail is truthy and not a string. Each answers with its own field's message. */
  lemma {:induction false} OptionalStringGuardsDecide(body: Body, v: Verdict)
    requires Follows(body, Rules, v)
    ensures FirstFailure(body, Rules, 5) <==>
              AllPass(body, RequiredChecks) && Truthy(Get(body, "telefonoRestaurante")) && !Get(body, "telefonoRestaurante").Str?
    ensures FirstFailure(body, Rules, 5) ==> v == Reject(ErrorReply(400, StringMessage("telefonoRestaurante")))
    ensures FirstFailure(body, Rules, 6) <==>
              && AllPass(body, RequiredChecks)
              && (Truthy(Get(body, "telefonoRestaurante")) ==> Get(body, "telefonoRestaurante").Str?)
              && Truthy(Get(body, "emailRestaurante")) && !Get(body, "emailRestaurante").Str?
    ensures FirstFailure(body, Rules, 6) ==> v == Reject(ErrorReply(400, StringMessage("emailRestaurante")))
  {
    forall j | 0 <= j < 7
      ensures j < 5 ==> Rules[j] == RequiredChecks[j]
      ensures 5 <= j ==> Rules[j] == TypeChecks[j - 5]
    {
      RuleAt(j);
    }
    if FirstFailure(body, Rules, 5) {
      AnswerAt(body, Rules, 5, v);
    }
    if FirstFailure(body, Rules, 6) {
      AnswerAt(body, Rules, 6, v);
    }
  }

  /** No check reads `localidad`, so it never decides the answer: a body may leave it out. */
  lemma {:induction false} LocalidadUnchecked(body: Body, x: JVal, v: Verdict)
    requires Follows(body, Rules, v)
    ensures Follows(body["localidad" := x], Rules, v)
  {
    assert "localidad" !in BooleanFields;
    forall i | 0 <= i < |Rules|
      ensures Rules[i].field != "localidad"
    {
      RuleAt(i);
      if 8 <= i {
        assert BooleanFields[i - 8] in BooleanFields;
      }
    }
    UncheckedFieldIrrelevant(body, Rules, "localidad", x, v);
  }

  /** `imagenes` is only required to be an array: an array of anything, strings or not, passes
      every check that reads it. */
  lemma {:induction false} ArrayOfNonStringsAccepted(body: Body)
    requires Get(body, "imagenes").Arr?
    ensures forall i | 0 <= i < |Rules| :: Rules[i].field == "imagenes" ==> Run(body, Rules[i]) == Pass
  {
    forall i | 0 <= i < |Rules| && Rules[i].field == "imagenes"
      ensures Run(body, Rules[i]) == Pass
    {
      RuleAt(i);
    }
  }

  /** A boolean field holding anything but a boolean, "true" or "false" is reported by name, the
      first such field in list order, once the guards are fine. */
  lemma {:induction false} FirstBadFlagReported(body: Body, k: nat, v: Verdict)
    requires Follows(body, Rules, v)
    requires AllPass(body, RequiredChecks) && AllPass(body, TypeChecks)
    requires k < |BooleanFields| && !BooleanLike(Get(body, BooleanFields[k]))
    requires forall j | 0 <= j < k :: BooleanLike(Get(body, BooleanFields[j]))
    ensures v == Reject(ErrorReply(400, BooleanMessage(BooleanFields[k])))
  {
    BothPass(body, RequiredChecks, TypeChecks);
    assert FirstFailure(body, BooleanChecks(BooleanFields), k);
    FailureBehind(body, RequiredChecks + TypeChecks, BooleanChecks(BooleanFields), k);
    AnswerAt(body, Rules, |RequiredChecks + TypeChecks| + k, v);
  }
}
