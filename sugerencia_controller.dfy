/** The suggestion handlers: creation with a thank-you message, the lookups, the update and delete
    through the service, and the approval that turns a suggestion into a restaurant. */
module SugerenciaController {
  import opened Wrappers
  import opened Json
  import opened Http
  import opened JsString
  import opened Store
  import opened Slug
  import SugerenciaService
  import RestauranteService

  const InvalidId: Reply := ErrorReply(400, "ID inválido")
  const NotFoundReply: Reply := ErrorReply(404, "Sugerencia no encontrada")
  const MissingReply: Reply := ErrorReply(400, "Faltan campos obligatorios")
  const DeletedReply: Reply := Reply(200, Envelope("mensaje", "Sugerencia eliminada correctamente"))
  const Aprobada: string := "Sugerencia aprobada y convertida en restaurante"

  const CrearError: string := "Error al crear sugerencia"
  const ListarError: string := "Error al obtener sugerencias"
  const ObtenerError: string := "Error al obtener sugerencia"
  const ActualizarError: string := "Error al actualizar sugerencia"
  const EliminarError: string := "Error al eliminar sugerencia"
  const AprobarError: string := "Error al aprobar sugerencia"

  // ---------------------------------------------------------------- fraseAleatoria

  const Placeholder: string := "{nombre}"

  /** The five thank-you templates, each cut at its placeholder: the text before it and the
      text after it. */
  const Before: seq<string> := [
    "¡Gracias por tu sugerencia! El restaurante \"",
    "¡Genial! Hemos recibido la sugerencia para \"",
    "¡Perfecto! \"",
    "¡Tu sugerencia para \"",
    "¡Gracias por ayudarnos a mejorar! \""
  ]
  const After: seq<string> := [
    "\" ha sido registrado y será revisado.",
    "\". Nuestro equipo la revisará pronto.",
    "\" está en nuestra lista para evaluación. ¡Gracias por colaborar!",
    "\" ha sido anotada! Te avisaremos cuando sea verificada.",
    "\" será revisado por nuestro equipo muy pronto."
  ]

  /** `frasesGracias` */
  const Frases: seq<string> := [
    Before[0] + Placeholder + After[0],
    Before[1] + Placeholder + After[1],
    Before[2] + Placeholder + After[2],
    Before[3] + Placeholder + After[3],
    Before[4] + Placeholder + After[4]
  ]

  /** The text before each placeholder holds no `{`, template by template. */
  lemma NoBraceBefore0() ensures '{' !in Before[0] {}
  lemma NoBraceBefore1() ensures '{' !in Before[1] {}
  lemma NoBraceBefore2() ensures '{' !in Before[2] {}
  lemma NoBraceBefore3() ensures '{' !in Before[3] {}
  lemma NoBraceBefore4() ensures '{' !in Before[4] {}

  /** The first template holds no `$` around its placeholder. */
  lemma NoDollarBefore0() ensures '$' !in Before[0] {}
  lemma NoDollarAfter0() ensures '$' !in After[0] {}

  /** Each template is a text without `{`, the placeholder, and the rest. */
  lemma {:induction false} TemplateShape(pick: nat)
    requires pick < |Frases|
    ensures Frases[pick] == Before[pick] + Placeholder + After[pick]
    ensures '{' !in Before[pick]
  {
    if pick == 0 {
      NoBraceBefore0();
    } else if pick == 1 {
      NoBraceBefore1();
    } else if pick == 2 {
      NoBraceBefore2();
    } else if pick == 3 {
      NoBraceBefore3();
    } else {
      NoBraceBefore4();
    }
  }

  /** `fraseAleatoria(nombre)` as written, with the template the random draw picked:
      `frase.replace("{nombre}", nombre)`, which expands `$` patterns in the name. */
  function FraseAleatoria(nombre: string, pick: nat): string
    requires pick < |Frases|
  {
    Replace(Frases[pick], Placeholder, nombre)
  }

  /** The message as intended: the name put in place of the placeholder as it is. */
  function Frase(nombre: string, pick: nat): (m: string)
    requires pick < |Frases|
    ensures m == Before[pick] + nombre + After[pick]
  {
    var p, q := Before[pick], After[pick];
    TemplateShape(pick);
    IndexOfAfterPrefix(p, Placeholder, q);
    assert (p + Placeholder + q)[..|p|] == p;
    assert (p + Placeholder + q)[|p| + |Placeholder|..] == q;
    ReplaceVerbatim(Frases[pick], Placeholder, nombre)
  }

  /** The intended message always names the suggested restaurant. */
  lemma {:induction false} FraseNamesTheRestaurant(nombre: string, pick: nat)
    requires pick < |Frases|
    ensures Includes(Frase(nombre, pick), nombre)
  {
    var p := Before[pick];
    var m := Frase(nombre, pick);
    assert m[|p|..|p| + |nombre|] == nombre;
    assert OccursAt(m, nombre, |p|);
  }

  /** For a name without `$` the code as written gives the intended message. */
  lemma {:induction false} FraseAleatoriaWithoutDollar(nombre: string, pick: nat)
    requires pick < |Frases| && '$' !in nombre
    ensures FraseAleatoria(nombre, pick) == Frase(nombre, pick)
  {
    var p, q := Before[pick], After[pick];
    TemplateShape(pick);
    IndexOfAfterPrefix(p, Placeholder, q);
    SubstitutionPlain(Placeholder, Frases[pick], |p|, nombre);
    assert Frases[pick][..|p|] == p;
    assert Frases[pick][|p| + |Placeholder|..] == q;
  }

  /** A name holding `$&` loses it: `$&` stands for the matched placeholder, so the message for
      the name "A$&B" reads "A{nombre}B" and never contains the name. */
  lemma {:induction false} DollarAmpersandLosesTheName()
    ensures FraseAleatoria("A$&B", 0) == Before[0] + "A{nombre}B" + After[0]
    ensures !Includes(FraseAleatoria("A$&B", 0), "A$&B")
  {
    var p, q, s := Before[0], After[0], Frases[0];
    TemplateShape(0);
    NoDollarBefore0();
    NoDollarAfter0();
    IndexOfAfterPrefix(p, Placeholder, q);
    assert s[..|p|] == p;
    assert s[|p| + |Placeholder|..] == q;
    SubstitutionChar(Placeholder, s, |p|, 'B', "");
    SubstitutionMatch(Placeholder, s, |p|, "B");
    SubstitutionChar(Placeholder, s, |p|, 'A', "$&B");
    assert "A$&B" == ['A'] + "$&B" && "$&B" == "$&" + "B" && "B" == ['B'] + "";
    var m := FraseAleatoria("A$&B", 0);
    assert m == p + "A{nombre}B" + q;
    assert '$' !in "A{nombre}B";
    assert '$' !in m;
    assert "A$&B"[1] == '$';
    MissingCharExcludes(m, "A$&B", '$');
  }

  // ---------------------------------------------------------------- crearSugerencia

  /** The seven fields `crearSugerencia` requires. */
  const Obligatorios: seq<string> := ["nombre", "direccion", "descripcion", "localidad", "ciudad", "provincia", "nombreContacto"]

  /** Some required field is falsy. */
  predicate FaltanCampos(body: Body) {
    exists i | 0 <= i < |Obligatorios| :: !Truthy(Get(body, Obligatorios[i]))
  }

  /** The handler's seven-way guard is exactly "some required field is falsy". */
  lemma {:induction false} GuardIsFaltanCampos(body: Body)
    ensures FaltanCampos(body) <==>
      || !Truthy(Get(body, "nombre")) || !Truthy(Get(body, "direccion")) || !Truthy(Get(body, "descripcion"))
      || !Truthy(Get(body, "localidad")) || !Truthy(Get(body, "ciudad")) || !Truthy(Get(body, "provincia"))
      || !Truthy(Get(body, "nombreContacto"))
  {
    if FaltanCampos(body) {
      var i :| 0 <= i < |Obligatorios| && !Truthy(Get(body, Obligatorios[i]));
      assert i == 0 || i == 1 || i == 2 || i == 3 || i == 4 || i == 5 || i == 6;
    }
    assert Obligatorios[0] == "nombre" && Obligatorios[1] == "direccion" && Obligatorios[2] == "descripcion";
    assert Obligatorios[3] == "localidad" && Obligatorios[4] == "ciudad" && Obligatorios[5] == "provincia";
    assert Obligatorios[6] == "nombreContacto";
  }

  /** The 23 destructured fields the handler passes on. */
  const Forwarded: set<string> := {
    "nombre", "direccion", "descripcion", "localidad", "ciudad", "provincia", "nombreContacto",
    "emailContacto", "comentarios", "zonaAmplia", "parqueCercano", "zonaInfantil",
    "tronaDisponible", "cambiadorDisponible", "sitioParaCarrito", "terrazaSegura",
    "actividadesParaNinos", "menuInfantil", "aptoVegetariano", "aptoVegano", "sinPantallas",
    "ambienteFamiliar", "accesibleConCarrito"
  }

  /** The object handed to the service: the forwarded fields, undefined ones left out. */
  function Forward(body: Body): (r: Body)
    ensures forall k :: k in r <==> k in Forwarded && Get(body, k) != Undef
    ensures forall k | k in r :: r[k] == Get(body, k)
  {
    Pick(body, Forwarded)
  }

  /** The forwarded fields are every field the service stores, and no other. */
  lemma {:induction false} ForwardedAreTheServiceColumns()
    ensures Forwarded == SugerenciaService.Columns - {"slug"}
  {
    SugerenciaService.GroupsDisjoint();
  }

  /** So forwarding only the 23 fields stores the same suggestion as passing the whole body. */
  lemma {:induction false} ForwardingKeepsTheRecord(body: Body, slug: string)
    ensures SugerenciaService.SugerenciaData(Forward(body), slug) == SugerenciaService.SugerenciaData(body, slug)
  {
    ForwardedAreTheServiceColumns();
    forall c | c in SugerenciaService.Columns && c != "slug"
      ensures Get(Forward(body), c) == Get(body, c)
    {
      assert c in Forwarded;
    }
    SugerenciaService.RecordReadsColumns(Forward(body), body, slug);
  }

  /** `crearSugerencia`: 400 when a required field is falsy, otherwise the service creates the
      suggestion and the reply thanks the sender with `fraseAleatoria` of the stored name, as
      written (`$` patterns in the name expanded). `pick` is the template `Math.random` chose. */
  method CrearSugerencia(db: Db, body: Body, slugify: Slugify, pick: nat, fault: Option<Failure>) returns (reply: Reply)
    requires db.Valid() && pick < |Frases|
    modifies db
    ensures db.Valid()
    ensures FaltanCampos(body) ==> reply == MissingReply
    ensures !FaltanCampos(body) && (!Get(body, "nombre").Str? || fault.Some?) ==> reply == ErrorReply(500, CrearError)
    ensures reply.status == 201 <==> !FaltanCampos(body) && Get(body, "nombre").Str? && fault.None?
    ensures reply.status == 201 ==>
              var nombre := Get(body, "nombre").s;
              var row := Row(old(db.NextId(Sugerencias)), Defined(SugerenciaService.SugerenciaData(Forward(body), slugify(nombre))));
              && db.Rows(Sugerencias) == old(db.Rows(Sugerencias))[row.id := row]
              && reply.body == Obj(map["mensaje" := Str(FraseAleatoria(nombre, pick)), "sugerencia" := RowJson(row)])
    ensures reply.status != 201 ==> db.Kept(Sugerencias)
    ensures db.Kept(Restaurantes) && db.Kept(Admins)
  {
    GuardIsFaltanCampos(body);
    var nombre := Get(body, "nombre");
    if !Truthy(nombre) || !Truthy(Get(body, "direccion")) || !Truthy(Get(body, "descripcion"))
      || !Truthy(Get(body, "localidad")) || !Truthy(Get(body, "ciudad")) || !Truthy(Get(body, "provincia"))
      || !Truthy(Get(body, "nombreContacto"))
    {
      return MissingReply;
    }
    var created := SugerenciaService.CrearSugerencia(db, Forward(body), slugify, fault);
    if created.Err? {
      return ErrorReply(500, CrearError);
    }
    var stored := created.value;
    assert "nombre" in stored.data && stored.data["nombre"] == nombre;
    reply := Reply(201, Obj(map["mensaje" := Str(FraseAleatoria(stored.data["nombre"].s, pick)), "sugerencia" := RowJson(stored)]));
  }

  // ---------------------------------------------------------------- lookups

  /** `obtenerSugerencias`: every suggestion, newest first. */
  method ObtenerSugerencias(db: Db, fault: Option<Failure>) returns (reply: Reply)
    ensures fault.Some? ==> reply == ErrorReply(500, ListarError)
    ensures fault.None? ==> reply == Reply(200, Arr(RowsJson(Listed(db.Rows(Sugerencias), map[], 0, db.NextId(Sugerencias) - 1))))
  {
    var found := SugerenciaService.ObtenerSugerencias(db, fault);
    if found.Ok? {
      reply := Reply(200, Arr(RowsJson(found.value)));
    } else {
      reply := ErrorReply(500, ListarError);
    }
  }

  /** `obtenerSugerenciaPorId`: the `parseInt` guard, then the service's `Number` lookup. An id
      such as "12abc" passes the guard and is then refused by the store, a 500. */
  method ObtenerSugerenciaPorId(db: Db, id: string, fault: Option<Failure>) returns (reply: Reply)
    ensures ParseInt(id).None? ==> reply == InvalidId
    ensures ParseInt(id).Some? && (ToNumber(id).None? || fault.Some?) ==> reply == ErrorReply(500, ObtenerError)
    ensures ParseInt(id).Some? && ToNumber(id).Some? && fault.None? ==> var n := ToNumber(id).value;
              if n in db.Rows(Sugerencias) then reply == Reply(200, RowJson(db.Rows(Sugerencias)[n]))
              else reply == NotFoundReply
  {
    if ParseInt(id).None? {
      return InvalidId;
    }
    var found := SugerenciaService.ObtenerPorId(db, id, fault);
    if found.Err? {
      return ErrorReply(500, ObtenerError);
    }
    if found.value.None? {
      return NotFoundReply;
    }
    reply := Reply(200, RowJson(found.value.value));
  }

  // ---------------------------------------------------------------- update and delete

  /** The `catch` of update and delete: a P2025 code is a 404, anything else a 500. */
  function FailureReply(e: Failure, otherwise: string): (reply: Reply)
    ensures reply.status == 404 <==> e.code == Some(NotFound)
    ensures e.code == Some(NotFound) ==> reply == NotFoundReply
    ensures e.code != Some(NotFound) ==> reply == ErrorReply(500, otherwise)
  {
    if e.code == Some(NotFound) then NotFoundReply else ErrorReply(500, otherwise)
  }

  /** `actualizarSugerencia`. The service rethrows every failure without its code, so the 404
      branch is never taken: a missing suggestion ends as a 500. */
  method ActualizarSugerencia(db: Db, id: string, body: Body, slugify: Slugify, fault: Option<Failure>) returns (reply: Reply)
    requires db.Valid()
    modifies db
    ensures db.Valid()
    ensures reply.status != 404
    ensures ParseInt(id).None? ==> reply == InvalidId
    ensures ParseInt(id).Some? && (ToNumber(id).None? || fault.Some?) ==> reply == ErrorReply(500, ActualizarError)
    ensures ParseInt(id).Some? && ToNumber(id).Some? && fault.None? ==> var n := ToNumber(id).value;
              if n in old(db.Rows(Sugerencias)) then
                var row := Row(n, old(db.Rows(Sugerencias))[n].data + Defined(SugerenciaService.ActualizarData(body, slugify)));
                reply == Reply(200, RowJson(row)) && db.Rows(Sugerencias) == old(db.Rows(Sugerencias))[n := row]
              else reply == ErrorReply(500, ActualizarError)
    ensures reply.status != 200 ==> db.Kept(Sugerencias)
    ensures db.NextId(Sugerencias) == old(db.NextId(Sugerencias))
    ensures db.Kept(Restaurantes) && db.Kept(Admins)
  {
    if ParseInt(id).None? {
      return InvalidId;
    }
    var updated := SugerenciaService.ActualizarSugerencia(db, id, body, slugify, fault);
    if updated.Ok? {
      reply := Reply(200, RowJson(updated.value));
    } else {
      reply := FailureReply(updated.error, ActualizarError);
    }
  }

  /** `eliminarSugerencia`: the same dead 404 branch. */
  method EliminarSugerencia(db: Db, id: string, fault: Option<Failure>) returns (reply: Reply)
    requires db.Valid()
    modifies db
    ensures db.Valid()
    ensures reply.status != 404
    ensures ParseInt(id).None? ==> reply == InvalidId
    ensures reply == DeletedReply <==>
              ParseInt(id).Some? && ToNumber(id).Some? && fault.None? && ToNumber(id).value in old(db.Rows(Sugerencias))
    ensures reply == DeletedReply ==> db.Rows(Sugerencias) == old(db.Rows(Sugerencias)) - {ToNumber(id).value}
    ensures ParseInt(id).Some? && reply != DeletedReply ==> reply == ErrorReply(500, EliminarError)
    ensures reply != DeletedReply ==> db.Kept(Sugerencias)
    ensures db.NextId(Sugerencias) == old(db.NextId(Sugerencias))
    ensures db.Kept(Restaurantes) && db.Kept(Admins)
  {
    if ParseInt(id).None? {
      return InvalidId;
    }
    var deleted := SugerenciaService.Eliminar(db, id, fault);
    if deleted.Ok? {
      reply := DeletedReply;
    } else {
      reply := FailureReply(deleted.error, EliminarError);
    }
  }

  // ---------------------------------------------------------------- aprobarSugerencia

  /** The fields of a suggestion the approval copies. */
  const ApprovalCopied: set<string> := {"nombre", "direccion", "descripcion"} + SugerenciaService.Flags

  /** The object the approval passes to the restaurant service: the copied fields, and both
      status flags set. */
  function ApprovalData(sugerencia: Body): (r: Body)
    ensures forall k | k in ApprovalCopied :: Get(r, k) == Get(sugerencia, k)
    ensures Get(r, "activo") == Bool(true) && Get(r, "verificado") == Bool(true)
    ensures forall k | k in r :: k in ApprovalCopied || k == "activo" || k == "verificado"
  {
    Pick(sugerencia, ApprovalCopied)["activo" := Bool(true)]["verificado" := Bool(true)]
  }

  /** The location fields and the contact data stay behind. */
  lemma {:induction false} ApprovalLeavesLocationBehind(sugerencia: Body, k: string)
    requires k in {"ciudad", "provincia", "localidad", "nombreContacto", "emailContacto", "comentarios"}
    ensures k !in ApprovalData(sugerencia)
  {
    assert k !in SugerenciaService.Flags;
  }

  /** The restaurant an approval of `s` creates under `id`. */
  function Approved(s: Body, slugify: Slugify, id: int): Row
    requires Get(s, "nombre").Str?
  {
    Row(id, Defined(RestauranteService.CrearData(ApprovalData(s), slugify(Get(s, "nombre").s))))
  }

  /** `aprobarSugerencia`: look the suggestion up, create the restaurant, delete the suggestion,
      in that order and with no rollback. Each of the three store calls may fail on its own. */
  method AprobarSugerencia(db: Db, id: string, slugify: Slugify, lookup: Option<Failure>, create: Option<Failure>, delete: Option<Failure>)
    returns (reply: Reply)
    requires db.Valid()
    modifies db
    ensures db.Valid()
    ensures ParseInt(id).None? ==> reply == InvalidId
    ensures ParseInt(id).Some? && (ToNumber(id).None? || lookup.Some?) ==>
              reply == ErrorReply(500, AprobarError) && db.Kept(Restaurantes) && db.Kept(Sugerencias)
    ensures ParseInt(id).Some? && ToNumber(id).Some? && lookup.None? && ToNumber(id).value !in old(db.Rows(Sugerencias)) ==>
              reply == NotFoundReply
    ensures reply.status != 201 && reply != ErrorReply(500, AprobarError) ==> db.Kept(Restaurantes) && db.Kept(Sugerencias)
    ensures && ParseInt(id).Some? && ToNumber(id).Some? && lookup.None? && ToNumber(id).value in old(db.Rows(Sugerencias))
            && (!Approvable(old(db.Rows(Sugerencias)), old(db.Rows(Restaurantes)), id, slugify) || create.Some?) ==>
              reply == ErrorReply(500, AprobarError) && db.Kept(Restaurantes) && db.Kept(Sugerencias)
    ensures reply.status == 201 ==>
              && ParseInt(id).Some? && ToNumber(id).Some? && ToNumber(id).value in old(db.Rows(Sugerencias))
              && Get(old(db.Rows(Sugerencias))[ToNumber(id).value].data, "nombre").Str?
              && var row := Approved(old(db.Rows(Sugerencias))[ToNumber(id).value].data, slugify, old(db.NextId(Restaurantes)));
              && db.Rows(Restaurantes) == old(db.Rows(Restaurantes))[row.id := row]
              && db.Rows(Sugerencias) == old(db.Rows(Sugerencias)) - {ToNumber(id).value}
              && reply.body == Obj(map["mensaje" := Str(Aprobada), "restaurante" := RowJson(row)])
    ensures Approvable(old(db.Rows(Sugerencias)), old(db.Rows(Restaurantes)), id, slugify) && lookup.None? && create.None? ==>
              && var s := old(db.Rows(Sugerencias))[ToNumber(id).value].data;
              && db.Rows(Restaurantes) == old(db.Rows(Restaurantes))[old(db.NextId(Restaurantes)) := Approved(s, slugify, old(db.NextId(Restaurantes)))]
              && (reply.status == 201 <==> delete.None?)
              && (delete.Some? ==> reply == ErrorReply(500, AprobarError) && db.Kept(Sugerencias))
    ensures db.Kept(Admins)
  {
    ghost var restaurantes, next := db.Rows(Restaurantes), db.NextId(Restaurantes);
    if ParseInt(id).None? {
      return InvalidId;
    }
    var found := SugerenciaService.ObtenerPorId(db, id, lookup);
    if found.Err? {
      return ErrorReply(500, AprobarError);
    }
    if found.value.None? {
      return NotFoundReply;
    }
    var sugerencia := found.value.value;
    var creado := RestauranteService.Crear(db, ApprovalData(sugerencia.data), slugify, create);
    if creado.Err? {
      return ErrorReply(500, AprobarError);
    }
    assert creado.value == Approved(sugerencia.data, slugify, next);
    ghost var created := db.Rows(Restaurantes);
    assert created == restaurantes[next := creado.value];
    var eliminado := SugerenciaService.Eliminar(db, id, delete);
    if eliminado.Err? {
      return ErrorReply(500, AprobarError);
    }
    reply := Reply(201, Obj(map["mensaje" := Str(Aprobada), "restaurante" := RowJson(creado.value)]));
  }

  /** The suggestion `id` names exists, has a string name, and its restaurant would clash with no
      stored one on a unique column. */
  predicate Approvable(sugerencias: map<int, Row>, restaurantes: map<int, Row>, id: string, slugify: Slugify) {
    && ParseInt(id).Some? && ToNumber(id).Some? && ToNumber(id).value in sugerencias
    && var s := sugerencias[ToNumber(id).value].data;
    && Get(s, "nombre").Str?
    && !Clashes(Restaurantes, restaurantes, 0, ApprovalRecord(s, slugify))
  }

  /** Once the restaurant approved from `s` is stored, approving `s` again clashes on the unique
      slug: a retry after a failed delete is refused by the store rather than storing a copy. */
  lemma {:induction false} RetriedApprovalClashes(restaurantes: map<int, Row>, s: Body, slugify: Slugify, n: int)
    requires Get(s, "nombre").Str? && n != 0
    requires n in restaurantes && restaurantes[n] == Approved(s, slugify, n)
    ensures Clashes(Restaurantes, restaurantes, 0, ApprovalRecord(s, slugify))
  {
    var slug := slugify(Get(s, "nombre").s);
    var record := ApprovalRecord(s, slugify);
    RestauranteService.CrearStoresSlugAndImages(ApprovalData(s), slug);
    assert record["slug"] == Str(slug);
    assert "slug" in UniqueColumns(Restaurantes);
    assert Get(restaurantes[n].data, "slug") == record["slug"];
  }

  /** So while the suggestion is still stored next to the restaurant its approval created, it is
      not approvable: a second approval answers 500 and changes nothing. */
  lemma {:induction false} RetryNotApprovable(sugerencias: map<int, Row>, restaurantes: map<int, Row>, id: string,
                                              slugify: Slugify, n: int)
    requires ToNumber(id).Some? && ToNumber(id).value in sugerencias
    requires Get(sugerencias[ToNumber(id).value].data, "nombre").Str? && n != 0 && n in restaurantes
    requires restaurantes[n] == Approved(sugerencias[ToNumber(id).value].data, slugify, n)
    ensures !Approvable(sugerencias, restaurantes, id, slugify)
  {
    RetriedApprovalClashes(restaurantes, sugerencias[ToNumber(id).value].data, slugify, n);
  }

  /** The record the restaurant service is asked to store for suggestion `s`. */
  function ApprovalRecord(s: Body, slugify: Slugify): Body
    requires Get(s, "nombre").Str?
  {
    RestauranteService.CrearData(ApprovalData(s), slugify(Get(s, "nombre").s))
  }
}
