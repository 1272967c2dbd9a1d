/** The restaurant handlers the routes use. They call the store directly, not the service: the
    body is stored as sent, and the store's error codes reach the `catch`. */
module RestauranteController {
  import opened Wrappers
  import opened Json
  import opened Http
  import opened JsString
  import opened Store
  import opened Filtros

  const InvalidId: Reply := ErrorReply(400, "ID inválido")
  const NotFoundReply: Reply := ErrorReply(404, "Restaurante no encontrado")
  const DeletedReply: Reply := Reply(200, Envelope("mensaje", "Restaurante eliminado correctamente"))

  const CrearError: string := "Error al crear restaurante"
  const ListarError: string := "Error al obtener restaurantes"
  const ActualizarError: string := "Error al actualizar restaurante"
  const EliminarError: string := "Error al eliminar restaurante"

  /** The `catch` of update and delete: a store not-found is a 404, anything else a 500. */
  function FailureReply(e: Failure, otherwise: string): (reply: Reply)
    ensures reply.status == 404 <==> e.code == Some(NotFound)
    ensures e.code == Some(NotFound) ==> reply == NotFoundReply
    ensures e.code != Some(NotFound) ==> reply == ErrorReply(500, otherwise)
  {
    if e.code == Some(NotFound) then NotFoundReply else ErrorReply(500, otherwise)
  }

  /** `crearRestaurante`: `req.body` goes to the store as it is, with no slug and no default for
      `imagenes`, and the new row is sent back with 201. */
  method CrearRestaurante(db: Db, body: Body, fault: Option<Failure>) returns (reply: Reply)
    requires db.Valid()
    modifies db
    ensures db.Valid()
    ensures reply.status == 201 <==> fault.None? && !Clashes(Restaurantes, old(db.Rows(Restaurantes)), 0, body)
    ensures reply.status == 201 ==> var row := Row(old(db.NextId(Restaurantes)), Defined(body));
              && reply.body == RowJson(row)
              && db.Rows(Restaurantes) == old(db.Rows(Restaurantes))[row.id := row]
              && db.NextId(Restaurantes) == old(db.NextId(Restaurantes)) + 1
    ensures reply.status != 201 ==> reply == ErrorReply(500, CrearError) && db.Kept(Restaurantes)
    ensures db.Kept(Sugerencias) && db.Kept(Admins)
  {
    var created := db.Create(Restaurantes, body, fault);
    if created.Ok? {
      reply := Reply(201, RowJson(created.value));
    } else {
      reply := ErrorReply(500, CrearError);
    }
  }

  /** `obtenerRestaurantes`: the same filter as the service's listing, the rows newest first. */
  method ObtenerRestaurantes(db: Db, query: Query, fault: Option<Failure>) returns (reply: Reply)
    ensures fault.Some? ==> reply == ErrorReply(500, ListarError)
    ensures fault.None? ==>
              reply == Reply(200, Arr(RowsJson(Listed(db.Rows(Restaurantes), Filters(query), 0, db.NextId(Restaurantes) - 1))))
  {
    var filtros := BuildFiltros(query);
    var found := db.FindMany(Restaurantes, filtros, fault);
    if found.Ok? {
      reply := Reply(200, Arr(RowsJson(found.value)));
    } else {
      reply := ErrorReply(500, ListarError);
    }
  }

  /** `actualizarRestaurante`: an id `parseInt` cannot read is a 400 before the store is touched;
      otherwise `req.body` is the patch. */
  method ActualizarRestaurante(db: Db, id: string, body: Body, fault: Option<Failure>) returns (reply: Reply)
    requires db.Valid()
    modifies db
    ensures db.Valid()
    ensures ParseInt(id).None? ==> reply == InvalidId
    ensures ParseInt(id).Some? && fault.Some? ==> reply == FailureReply(fault.value, ActualizarError)
    ensures ParseInt(id).Some? && fault.None? && ParseInt(id).value !in old(db.Rows(Restaurantes)) ==> reply == NotFoundReply
    ensures ParseInt(id).Some? && fault.None? && ParseInt(id).value in old(db.Rows(Restaurantes)) ==>
              var n := ParseInt(id).value;
              var merged := old(db.Rows(Restaurantes))[n].data + Defined(body);
              if Clashes(Restaurantes, old(db.Rows(Restaurantes)), n, merged) then reply == ErrorReply(500, ActualizarError)
              else reply == Reply(200, RowJson(Row(n, merged))) && db.Rows(Restaurantes) == old(db.Rows(Restaurantes))[n := Row(n, merged)]
    ensures reply.status != 200 ==> db.Kept(Restaurantes)
    ensures db.NextId(Restaurantes) == old(db.NextId(Restaurantes))
    ensures db.Kept(Sugerencias) && db.Kept(Admins)
  {
    var n := ParseInt(id);
    if n.None? {
      return InvalidId;
    }
    var updated := db.Update(Restaurantes, n.value, body, fault);
    if updated.Ok? {
      reply := Reply(200, RowJson(updated.value));
    } else {
      reply := FailureReply(updated.error, ActualizarError);
    }
  }

  /** `eliminarRestaurante`: the same id guard; a removed row is answered with a fixed message. */
  method EliminarRestaurante(db: Db, id: string, fault: Option<Failure>) returns (reply: Reply)
    requires db.Valid()
    modifies db
    ensures db.Valid()
    ensures ParseInt(id).None? ==> reply == InvalidId
    ensures ParseInt(id).Some? && fault.Some? ==> reply == FailureReply(fault.value, EliminarError)
    ensures ParseInt(id).Some? && fault.None? && ParseInt(id).value !in old(db.Rows(Restaurantes)) ==> reply == NotFoundReply
    ensures reply == DeletedReply <==> ParseInt(id).Some? && fault.None? && ParseInt(id).value in old(db.Rows(Restaurantes))
    ensures reply == DeletedReply ==> db.Rows(Restaurantes) == old(db.Rows(Restaurantes)) - {ParseInt(id).value}
    ensures reply != DeletedReply ==> db.Kept(Restaurantes)
    ensures db.NextId(Restaurantes) == old(db.NextId(Restaurantes))
    ensures db.Kept(Sugerencias) && db.Kept(Admins)
  {
    var n := ParseInt(id);
    if n.None? {
      return InvalidId;
    }
    var deleted := db.Delete(Restaurantes, n.value, fault);
    if deleted.Ok? {
      reply := DeletedReply;
    } else {
      reply := FailureReply(deleted.error, EliminarError);
    }
  }
}
