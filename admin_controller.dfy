/** The admin handlers: login and registration, and the list, lookup, update and delete of admin
    accounts. They call the store directly, so its error codes reach them unchanged. Password
    hashing and comparison (`bcrypt`) and token signing are parameters. */
module AdminController {
  import opened Wrappers
  import opened Json
  import opened Http
  import opened JsString
  import opened Store
  import opened Jwt

  /** `bcrypt.hash(data, saltRounds)` */
  type Hasher = (string, int) -> string
  /** `bcrypt.compare(data, hash)` */
  type Comparer = (string, string) -> bool

  const SaltRounds: int := 10
  const Expiry: string := "4h"

  const Requeridos: Reply := MessageReply(400, "Email y contraseña son requeridos")
  const BadCredentials: Reply := MessageReply(401, "Credenciales incorrectas")
  const Inactive: Reply := MessageReply(403, "Cuenta de admin inactiva")
  const Internal: Reply := MessageReply(500, "Error interno del servidor")
  const RegisterMissing: Reply := MessageReply(400, "Contraseña y al menos email o nombre son requeridos")
  const Taken: Reply := MessageReply(409, "El email ya está registrado")
  const Creado: string := "Admin creado con éxito"
  const InvalidId: Reply := MessageReply(400, "ID inválido")
  const NotFoundReply: Reply := MessageReply(404, "Admin no encontrado")
  const Deleted: Reply := MessageReply(200, "Admin eliminado correctamente")

  /** Some stored admin has this e-mail. */
  predicate Registered(admins: map<int, Row>, email: JVal) {
    exists id | id in admins :: Get(admins[id].data, "email") == email
  }

  // ---------------------------------------------------------------- login

  /** `{ adminId: admin.id, email: admin.email }` */
  function TokenPayload(admin: Row): Body {
    map["adminId" := Num(admin.id as real), "email" := Get(admin.data, "email")]
  }

  /** What `login` answers once the lookup by e-mail is done: unknown account, inactive account,
      then the password comparison (which throws on a non-string), then the signed token. */
  function LoginReply(admin: Option<Row>, password: JVal, secret: string, compare: Comparer, sign: Signer): (reply: Reply)
    ensures reply.status == 200 <==>
              && admin.Some? && Truthy(Get(admin.value.data, "activo"))
              && password.Str? && Get(admin.value.data, "password").Str?
              && compare(password.s, Get(admin.value.data, "password").s)
    ensures reply.status == 200 ==> reply.body == Obj(map["token" := Str(sign(TokenPayload(admin.value), secret, Expiry))])
    ensures reply == Inactive <==> admin.Some? && !Truthy(Get(admin.value.data, "activo"))
    ensures reply.status != 200 ==> reply == BadCredentials || reply == Inactive || reply == Internal
  {
    if admin.None? then BadCredentials
    else if !Truthy(Get(admin.value.data, "activo")) then Inactive
    else if !password.Str? || !Get(admin.value.data, "password").Str? then Internal
    else if !compare(password.s, Get(admin.value.data, "password").s) then BadCredentials
    else Reply(200, Obj(map["token" := Str(sign(TokenPayload(admin.value), secret, Expiry))]))
  }

  /** An unknown e-mail and a wrong password get the same answer, so the reply does not tell
      which accounts exist. */
  lemma {:induction false} UnknownLooksLikeWrongPassword(admin: Row, password: string, secret: string, compare: Comparer, sign: Signer)
    requires Truthy(Get(admin.data, "activo")) && Get(admin.data, "password").Str?
    requires !compare(password, Get(admin.data, "password").s)
    ensures LoginReply(Some(admin), Str(password), secret, compare, sign) == LoginReply(None, Str(password), secret, compare, sign)
    ensures LoginReply(None, Str(password), secret, compare, sign) == BadCredentials
  {
  }

  /** An inactive account is refused before its password is looked at: the answer is the same
      whatever password is sent and whatever the comparison would say. */
  lemma {:induction false} InactiveBeforePassword(admin: Row, p1: JVal, p2: JVal, secret: string, c1: Comparer, c2: Comparer, sign: Signer)
    requires !Truthy(Get(admin.data, "activo"))
    ensures LoginReply(Some(admin), p1, secret, c1, sign) == LoginReply(Some(admin), p2, secret, c2, sign) == Inactive
  {
  }

  /** `login`: both fields are required before the store is asked; the account is the one stored
      under the given e-mail. */
  method Login(db: Db, body: Body, env: Option<string>, compare: Comparer, sign: Signer, fault: Option<Failure>) returns (reply: Reply)
    requires db.Valid()
    ensures !Truthy(Get(body, "email")) || !Truthy(Get(body, "password")) ==> reply == Requeridos
    ensures Truthy(Get(body, "email")) && Truthy(Get(body, "password")) && fault.Some? ==> reply == Internal
    ensures Truthy(Get(body, "email")) && Truthy(Get(body, "password")) && fault.None? && !Registered(db.Rows(Admins), Get(body, "email")) ==>
              reply == BadCredentials
    ensures Truthy(Get(body, "email")) && Truthy(Get(body, "password")) && fault.None? ==>
              forall id | id in db.Rows(Admins) && Get(db.Rows(Admins)[id].data, "email") == Get(body, "email") ::
                reply == LoginReply(Some(db.Rows(Admins)[id]), Get(body, "password"), Secret(env), compare, sign)
  {
    var email, password := Get(body, "email"), Get(body, "password");
    if !Truthy(email) || !Truthy(password) {
      return Requeridos;
    }
    var found := db.FindBy(Admins, "email", email, fault);
    if found.Err? {
      return Internal;
    }
    if found.value.Some? {
      var holder := found.value.value;
      forall id | id in db.Rows(Admins) && Get(db.Rows(Admins)[id].data, "email") == email
        ensures db.Rows(Admins)[id] == holder
      {
        UniqueHolder(Admins, db.Rows(Admins), db.NextId(Admins), "email", email, id, holder.id);
      }
    }
    reply := LoginReply(found.value, password, Secret(env), compare, sign);
  }

  /** A token `login` issues names the account by its id and by the e-mail the request gave. */
  lemma {:induction false} TokenNamesTheAccount(admin: Row, email: JVal)
    requires Get(admin.data, "email") == email
    ensures TokenPayload(admin)["adminId"] == Num(admin.id as real)
    ensures TokenPayload(admin)["email"] == email
    ensures TokenPayload(admin).Keys == {"adminId", "email"}
  {
  }

  // ---------------------------------------------------------------- register

  /** `register`'s required fields: a password, and an e-mail or a name. */
  predicate RegisterComplete(body: Body) {
    Truthy(Get(body, "password")) && (Truthy(Get(body, "email")) || Truthy(Get(body, "nombre")))
  }

  /** The record `register` creates: falsy e-mail and name stored as null, the hash in place of
      the password, and `activo` true when the body leaves it out. */
  function AdminRecord(body: Body, hashed: string): (r: Body)
    ensures r.Keys == {"email", "password", "nombre", "activo"}
    ensures r["password"] == Str(hashed)
    ensures forall k | k in r :: r[k] != Undef
  {
    var activo := Get(body, "activo");
    map["email" := Or(Get(body, "email"), Null), "password" := Str(hashed),
        "nombre" := Or(Get(body, "nombre"), Null), "activo" := if activo == Undef then Bool(true) else activo]
  }

  /** The stored e-mail and name are the sent ones when truthy and null otherwise; `activo`
      defaults to true only when absent: a sent `false` or `null` is stored as sent. */
  lemma {:induction false} RegisterDefaults(body: Body, hashed: string)
    ensures Truthy(Get(body, "email")) ==> AdminRecord(body, hashed)["email"] == Get(body, "email")
    ensures !Truthy(Get(body, "email")) ==> AdminRecord(body, hashed)["email"] == Null
    ensures Truthy(Get(body, "nombre")) ==> AdminRecord(body, hashed)["nombre"] == Get(body, "nombre")
    ensures !Truthy(Get(body, "nombre")) ==> AdminRecord(body, hashed)["nombre"] == Null
    ensures Get(body, "activo") == Undef ==> AdminRecord(body, hashed)["activo"] == Bool(true)
    ensures Get(body, "activo") != Undef ==> AdminRecord(body, hashed)["activo"] == Get(body, "activo")
  {
  }

  /** An e-mail nobody holds, or a falsy one (stored as null), cannot clash on the unique index. */
  lemma {:induction false} FreshEmailNoClash(admins: map<int, Row>, body: Body, hashed: string)
    requires Truthy(Get(body, "email")) ==> !Registered(admins, Get(body, "email"))
    ensures !Clashes(Admins, admins, 0, AdminRecord(body, hashed))
  {
  }

  /** `register`: the field check, the duplicate check on a truthy e-mail, the hash, the record. */
  method Register(db: Db, body: Body, hash: Hasher, lookup: Option<Failure>, create: Option<Failure>) returns (reply: Reply)
    requires db.Valid()
    modifies db
    ensures db.Valid()
    ensures !RegisterComplete(body) ==> reply == RegisterMissing
    ensures reply == Taken <==>
              RegisterComplete(body) && Truthy(Get(body, "email")) && lookup.None? && Registered(old(db.Rows(Admins)), Get(body, "email"))
    ensures reply.status == 201 <==>
              && RegisterComplete(body) && Get(body, "password").Str? && create.None?
              && (Truthy(Get(body, "email")) ==> lookup.None? && !Registered(old(db.Rows(Admins)), Get(body, "email")))
    ensures reply.status == 201 ==>
              var row := Row(old(db.NextId(Admins)), AdminRecord(body, hash(Get(body, "password").s, SaltRounds)));
              && db.Rows(Admins) == old(db.Rows(Admins))[row.id := row]
              && reply.body == Obj(map["message" := Str(Creado), "adminId" := Num(row.id as real)])
    ensures reply.status != 201 && reply != RegisterMissing && reply != Taken ==> reply == Internal
    ensures reply.status != 201 ==> db.Kept(Admins)
    ensures db.Kept(Restaurantes) && db.Kept(Sugerencias)
  {
    var email, password := Get(body, "email"), Get(body, "password");
    if !Truthy(password) || (!Truthy(email) && !Truthy(Get(body, "nombre"))) {
      return RegisterMissing;
    }
    if Truthy(email) {
      var existing := db.FindBy(Admins, "email", email, lookup);
      if existing.Err? {
        return Internal;
      }
      if existing.value.Some? {
        return Taken;
      }
    }
    if !password.Str? {
      return Internal;
    }
    var record := AdminRecord(body, hash(password.s, SaltRounds));
    FreshEmailNoClash(db.Rows(Admins), body, hash(password.s, SaltRounds));
    assert Defined(record) == record;
    var created := db.Create(Admins, record, create);
    if created.Err? {
      return Internal;
    }
    reply := Reply(201, Obj(map["message" := Str(Creado), "adminId" := Num(created.value.id as real)]));
  }

  // ---------------------------------------------------------------- password-free projections

  /** The columns the admin queries select besides `id`: never `password`. */
  const PublicColumns: set<string> := {"email", "nombre", "activo"}

  /** An admin as the list, lookup and update replies show it. */
  function Public(admin: Row): (v: JVal)
    ensures v.Obj? && "password" !in v.fields
    ensures "id" in v.fields && v.fields["id"] == Num(admin.id as real)
    ensures forall k | k in PublicColumns && Get(admin.data, k) != Undef :: k in v.fields && v.fields[k] == admin.data[k]
    ensures forall k | k in v.fields :: k == "id" || (k in PublicColumns && k in admin.data)
  {
    RowJson(Row(admin.id, Pick(admin.data, PublicColumns)))
  }

  /** A list of admins as `obtenerAdmins` shows it, in the same order. */
  function PublicRows(admins: seq<Row>): (v: seq<JVal>)
    ensures |v| == |admins|
    ensures forall i | 0 <= i < |admins| :: v[i] == Public(admins[i]) && "password" !in v[i].fields
  {
    seq(|admins|, i requires 0 <= i < |admins| => Public(admins[i]))
  }

  /** `obtenerAdmins`: every admin, without passwords. */
  method ObtenerAdmins(db: Db, fault: Option<Failure>) returns (reply: Reply)
    ensures fault.Some? ==> reply == Internal
    ensures fault.None? ==> reply == Reply(200, Arr(PublicRows(Listed(db.Rows(Admins), map[], 0, db.NextId(Admins) - 1))))
  {
    var found := db.FindMany(Admins, map[], fault);
    if found.Err? {
      return Internal;
    }
    reply := Reply(200, Arr(PublicRows(found.value)));
  }

  /** `obtenerAdminPorId`: the id is `parseInt`'s reading, so "12abc" looks up admin 12. */
  method ObtenerAdminPorId(db: Db, id: string, fault: Option<Failure>) returns (reply: Reply)
    ensures ParseInt(id).None? ==> reply == InvalidId
    ensures ParseInt(id).Some? && fault.Some? ==> reply == Internal
    ensures ParseInt(id).Some? && fault.None? ==> var n := ParseInt(id).value;
              if n in db.Rows(Admins) then reply == Reply(200, Public(db.Rows(Admins)[n])) else reply == NotFoundReply
  {
    var n := ParseInt(id);
    if n.None? {
      return InvalidId;
    }
    var found := db.FindUnique(Admins, n.value, fault);
    if found.Err? {
      return Internal;
    }
    if found.value.None? {
      return NotFoundReply;
    }
    reply := Reply(200, Public(found.value.value));
  }

  // ---------------------------------------------------------------- actualizarAdmin

  /** `dataToUpdate` before the clean-up: the three copied fields, and the hash of a truthy
      password. */
  function Draft(body: Body, hash: Hasher): Body
    requires Truthy(Get(body, "password")) ==> Get(body, "password").Str?
  {
    var d := map["email" := Get(body, "email"), "nombre" := Get(body, "nombre"), "activo" := Get(body, "activo")];
    if Truthy(Get(body, "password")) then d["password" := Str(hash(Get(body, "password").s, SaltRounds))] else d
  }

  /** The keys of `dataToUpdate`, in the order the object has them. */
  function DraftKeys(body: Body): (keys: seq<string>)
  {
    ["email", "nombre", "activo"] + (if Truthy(Get(body, "password")) then ["password"] else [])
  }

  /** Building `dataToUpdate`, then the `forEach` over its keys that deletes every undefined one. */
  method BuildPatch(body: Body, hash: Hasher) returns (patch: Body)
    requires Truthy(Get(body, "password")) ==> Get(body, "password").Str?
    ensures patch == Defined(Draft(body, hash))
  {
    var draft := Draft(body, hash);
    var keys := DraftKeys(body);
    assert forall k :: k in draft <==> k in keys;
    patch := draft;
    for i := 0 to |keys|
      invariant forall k :: k in patch <==> k in draft && (k in keys[..i] ==> draft[k] != Undef)
      invariant forall k | k in patch :: patch[k] == draft[k]
    {
      assert keys[..i + 1] == keys[..i] + [keys[i]];
      if patch[keys[i]] == Undef {
        patch := patch - {keys[i]};
      }
    }
    assert keys[..|keys|] == keys;
  }

  /** The patch holds a defined `email`, `nombre` or `activo` as sent and nothing for an undefined
      one; it holds `password` exactly when a truthy one was sent, and then only its hash. */
  lemma {:induction false} PatchContents(body: Body, hash: Hasher, k: string)
    requires Truthy(Get(body, "password")) ==> Get(body, "password").Str?
    ensures k in Defined(Draft(body, hash)) ==> k in {"email", "nombre", "activo", "password"}
    ensures k in {"email", "nombre", "activo"} ==>
              (k in Defined(Draft(body, hash)) <==> Get(body, k) != Undef)
              && (k in Defined(Draft(body, hash)) ==> Defined(Draft(body, hash))[k] == Get(body, k))
    ensures "password" in Defined(Draft(body, hash)) <==> Truthy(Get(body, "password"))
    ensures "password" in Defined(Draft(body, hash)) ==>
              Defined(Draft(body, hash))["password"] == Str(hash(Get(body, "password").s, SaltRounds))
  {
  }

  /** The `catch` of update and delete: P2025 is a 404, anything else a 500. */
  function FailureReply(e: Failure): (reply: Reply)
    ensures reply == NotFoundReply <==> e.code == Some(NotFound)
    ensures reply != NotFoundReply ==> reply == Internal
  {
    if e.code == Some(NotFound) then NotFoundReply else Internal
  }

  /** `actualizarAdmin`: the patch is merged into the stored admin and the reply shows it without
      its password. Taking another admin's e-mail is a unique-index failure, a 500. */
  method ActualizarAdmin(db: Db, id: string, body: Body, hash: Hasher, fault: Option<Failure>) returns (reply: Reply)
    requires db.Valid()
    modifies db
    ensures db.Valid()
    ensures ParseInt(id).None? ==> reply == InvalidId
    ensures ParseInt(id).Some? && Truthy(Get(body, "password")) && !Get(body, "password").Str? ==> reply == Internal
    ensures ParseInt(id).Some? && (Truthy(Get(body, "password")) ==> Get(body, "password").Str?) ==>
              && (fault.Some? ==> reply == FailureReply(fault.value))
              && (fault.None? && ParseInt(id).value !in old(db.Rows(Admins)) ==> reply == NotFoundReply)
    ensures ParseInt(id).Some? && (Truthy(Get(body, "password")) ==> Get(body, "password").Str?) && fault.None? &&
            ParseInt(id).value in old(db.Rows(Admins)) ==>
              var n := ParseInt(id).value;
              var merged := old(db.Rows(Admins))[n].data + Defined(Draft(body, hash));
              if Clashes(Admins, old(db.Rows(Admins)), n, merged) then reply == Internal
              else reply == Reply(200, Public(Row(n, merged))) && db.Rows(Admins) == old(db.Rows(Admins))[n := Row(n, merged)]
    ensures reply.status != 200 ==> db.Kept(Admins)
    ensures db.NextId(Admins) == old(db.NextId(Admins))
    ensures db.Kept(Restaurantes) && db.Kept(Sugerencias)
  {
    var n := ParseInt(id);
    if n.None? {
      return InvalidId;
    }
    var password := Get(body, "password");
    if Truthy(password) && !password.Str? {
      return Internal;
    }
    var patch := BuildPatch(body, hash);
    assert Defined(patch) == patch;
    var updated := db.Update(Admins, n.value, patch, fault);
    if updated.Err? {
      return FailureReply(updated.error);
    }
    reply := Reply(200, Public(updated.value));
  }

  // ---------------------------------------------------------------- eliminarAdmin

  /** `eliminarAdmin`: a confirmation, or 404 for an id no admin has. */
  method EliminarAdmin(db: Db, id: string, fault: Option<Failure>) returns (reply: Reply)
    requires db.Valid()
    modifies db
    ensures db.Valid()
    ensures ParseInt(id).None? ==> reply == InvalidId
    ensures ParseInt(id).Some? && fault.Some? ==> reply == FailureReply(fault.value)
    ensures reply == Deleted <==> ParseInt(id).Some? && fault.None? && ParseInt(id).value in old(db.Rows(Admins))
    ensures reply == Deleted ==> db.Rows(Admins) == old(db.Rows(Admins)) - {ParseInt(id).value}
    ensures ParseInt(id).Some? && fault.None? && ParseInt(id).value !in old(db.Rows(Admins)) ==> reply == NotFoundReply
    ensures reply != Deleted ==> db.Kept(Admins)
    ensures db.NextId(Admins) == old(db.NextId(Admins))
    ensures db.Kept(Restaurantes) && db.Kept(Sugerencias)
  {
    var n := ParseInt(id);
    if n.None? {
      return InvalidId;
    }
    var deleted := db.Delete(Admins, n.value, fault);
    if deleted.Err? {
      return FailureReply(deleted.error);
    }
    reply := Deleted;
  }
}
