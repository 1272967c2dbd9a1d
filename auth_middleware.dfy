/** The middleware that guards the admin routes: a bearer-style token in the `authorization`
    header, verified, naming an active admin, who is then recorded on the request. */
module AuthMiddleware {
  import opened Wrappers
  import opened Json
  import opened Http
  import opened JsString
  import opened Store
  import opened Jwt
  import AdminController

  const MissingToken: Reply := ErrorReply(401, "Token no proporcionado")
  const Malformed: Reply := ErrorReply(401, "Token mal formateado")
  const BadToken: Reply := ErrorReply(401, "Token inválido o expirado")
  const UnknownAdmin: Reply := ErrorReply(401, "Admin no encontrado")
  const Inactive: Reply := ErrorReply(403, "Cuenta de admin inactiva")

  /** `req.admin`: the id and e-mail of the admin the token names. */
  datatype Identity = Identity(id: int, email: JVal)

  /** The request as the middleware sees it: its headers, under the lower-case names Node gives
      them, and the `admin` field it sets. */
  class Request {
    const headers: map<string, string>
    var admin: Option<Identity>

    constructor (headers: map<string, string>)
      ensures this.headers == headers && admin == None
    {
      this.headers := headers;
      admin := None;
    }
  }

  /** `authHeader.split(" ")[1]`; a missing second piece reads as "", which is as falsy as
      `undefined`. */
  function TokenOf(header: string): (token: string)
    ensures ' ' !in token
  {
    var parts := Split(header, ' ');
    if |parts| >= 2 then parts[1] else ""
  }

  /** What the middleware decides. */
  datatype Access = Admit(who: Identity) | Deny(reply: Reply)

  /** The decision chain: header, token, signature, the admin the token names, that admin's
      `activo`. A payload whose `adminId` is not an integer, like a failing lookup, makes the store
      call throw inside the `try`. */
  function Decide(headers: map<string, string>, secret: string, verify: Verifier, admins: map<int, Row>, lookup: Option<Failure>): (a: Access)
    ensures a.Admit? ==>
              && "authorization" in headers
              && verify(TokenOf(headers["authorization"]), secret).Some?
              && Get(verify(TokenOf(headers["authorization"]), secret).value, "adminId") == Num(a.who.id as real)
              && lookup.None? && a.who.id in admins && Truthy(Get(admins[a.who.id].data, "activo"))
              && a.who.email == Get(admins[a.who.id].data, "email")
    ensures a.Deny? ==> a.reply.status == 401 || a.reply == Inactive
    ensures "authorization" !in headers || headers["authorization"] == "" ==> a == Deny(MissingToken)
  {
    if "authorization" !in headers || headers["authorization"] == "" then Deny(MissingToken)
    else
      var token := TokenOf(headers["authorization"]);
      if token == "" then Deny(Malformed)
      else match verify(token, secret)
        case None => Deny(BadToken)
        case Some(payload) =>
          var adminId := Get(payload, "adminId");
          if !adminId.Num? || !IsInteger(adminId.n) || lookup.Some? then Deny(BadToken)
          else
            var id := adminId.n.Floor;
            if id !in admins then Deny(UnknownAdmin)
            else if !Truthy(Get(admins[id].data, "activo")) then Deny(Inactive)
            else Admit(Identity(id, Get(admins[id].data, "email")))
  }

  /** The middleware: on `Next` it has set `req.admin`; on a rejection it has left it alone. */
  method Authenticate(req: Request, db: Db, env: Option<string>, verify: Verifier, lookup: Option<Failure>) returns (v: Verdict)
    requires db.Valid()
    modifies req
    ensures v.Next? <==> Decide(req.headers, Secret(env), verify, db.Rows(Admins), lookup).Admit?
    ensures v.Next? ==> req.admin == Some(Decide(req.headers, Secret(env), verify, db.Rows(Admins), lookup).who)
    ensures v.Reject? ==> v.reply == Decide(req.headers, Secret(env), verify, db.Rows(Admins), lookup).reply
    ensures v.Reject? ==> req.admin == old(req.admin)
  {
    if "authorization" !in req.headers || req.headers["authorization"] == "" {
      return Reject(MissingToken);
    }
    var token := TokenOf(req.headers["authorization"]);
    if token == "" {
      return Reject(Malformed);
    }
    var decoded := verify(token, Secret(env));
    if decoded.None? {
      return Reject(BadToken);
    }
    var adminId := Get(decoded.value, "adminId");
    if !adminId.Num? || !IsInteger(adminId.n) {
      return Reject(BadToken);
    }
    var found := db.FindUnique(Admins, adminId.n.Floor, lookup);
    if found.Err? {
      return Reject(BadToken);
    }
    if found.value.None? {
      return Reject(UnknownAdmin);
    }
    var admin := found.value.value;
    if !Truthy(Get(admin.data, "activo")) {
      return Reject(Inactive);
    }
    req.admin := Some(Identity(admin.id, Get(admin.data, "email")));
    v := Next;
  }

  /** The first word of the header is never checked: any scheme, "Bearer" or another, followed by
      one space and the token gives the token. */
  lemma {:induction false} AnySchemeAccepted(scheme: string, token: string)
    requires ' ' !in scheme && ' ' !in token
    ensures TokenOf(scheme + " " + token) == token
  {
    SplitPrefixed(scheme, token, ' ');
    SplitFree(token, ' ');
    assert scheme + " " + token == scheme + [' '] + token;
  }

  /** A header without a space, such as the bare token, has no second piece. */
  lemma {:induction false} BareTokenMalformed(header: string, headers: map<string, string>, secret: string, verify: Verifier,
                                              admins: map<int, Row>, lookup: Option<Failure>)
    requires header != "" && ' ' !in header
    requires "authorization" in headers && headers["authorization"] == header
    ensures Decide(headers, secret, verify, admins, lookup) == Deny(Malformed)
  {
    SplitFree(header, ' ');
  }

  /** Two spaces after the scheme leave an empty second piece. */
  lemma {:induction false} DoubleSpaceMalformed(scheme: string, token: string)
    requires ' ' !in scheme
    ensures TokenOf(scheme + "  " + token) == ""
  {
    SplitPrefixed(scheme, " " + token, ' ');
    SplitPrefixed("", token, ' ');
    assert scheme + "  " + token == scheme + [' '] + (" " + token);
    assert " " + token == "" + [' '] + token;
  }

  /** A token `login` issued to an admin, sent back as "Bearer <token>" and still accepted by the
      library, lets the same admin through, recorded under its id and e-mail, as long as the
      account is still active. */
  lemma {:induction false} IssuedTokenAdmits(admins: map<int, Row>, admin: Row, env: Option<string>, sign: Signer, verify: Verifier)
    requires admin.id in admins && admins[admin.id] == admin && Truthy(Get(admin.data, "activo"))
    requires var token := sign(AdminController.TokenPayload(admin), Secret(env), AdminController.Expiry);
             && token != "" && ' ' !in token
             && verify(token, Secret(env)) == Some(AdminController.TokenPayload(admin))
    ensures var token := sign(AdminController.TokenPayload(admin), Secret(env), AdminController.Expiry);
            Decide(map["authorization" := "Bearer " + token], Secret(env), verify, admins, None) ==
              Admit(Identity(admin.id, Get(admin.data, "email")))
  {
    var token := sign(AdminController.TokenPayload(admin), Secret(env), AdminController.Expiry);
    AnySchemeAccepted("Bearer", token);
    assert "Bearer " + token == "Bearer" + " " + token;
    var payload := AdminController.TokenPayload(admin);
    assert Get(payload, "adminId") == Num(admin.id as real);
    assert (admin.id as real).Floor == admin.id;
  }

  /** The token only ever admits an active admin: deactivating an account locks out tokens
      issued before. */
  lemma {:induction false} DeactivatedLockedOut(headers: map<string, string>, secret: string, verify: Verifier,
                                                admins: map<int, Row>, id: int, x: JVal)
    requires id in admins && !Truthy(x)
    ensures var locked := admins[id := Row(id, admins[id].data["activo" := x])];
            forall a | Decide(headers, secret, verify, locked, None) == Admit(a) :: a.id != id
  {
  }
}
