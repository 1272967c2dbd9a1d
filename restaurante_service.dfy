/** The restaurant service: builds the record or the patch, makes one store call, and rethrows
    any failure with a prefix of its own. */
module RestauranteService {
  import opened Wrappers
  import opened Json
  import opened JsString
  import opened Store
  import opened Filtros
  import opened Slug

  const CrearPrefix: string := "Error creando restaurante: "
  const TodosPrefix: string := "Error obteniendo restaurantes: "
  const PorIdPrefix: string := "Error obteniendo restaurante por ID: "
  const PorSlugPrefix: string := "Error obteniendo restaurante por slug: "
  const ActualizarPrefix: string := "Error actualizando restaurante: "
  const EliminarPrefix: string := "Error eliminando restaurante: "

  // ---------------------------------------------------------------- crear

  /** The `data` of `crear`: the caller's fields, then the computed slug, then `imagenes` as given
      when it is an array and `[]` otherwise. Later members win, so the caller's slug is lost. */
  function CrearData(data: Body, slug: string): (r: Body)
    ensures Get(r, "slug") == Str(slug)
    ensures Get(data, "imagenes").Arr? ==> Get(r, "imagenes") == Get(data, "imagenes")
    ensures !Get(data, "imagenes").Arr? ==> Get(r, "imagenes") == Arr([])
    ensures forall k | k != "slug" && k != "imagenes" :: Get(r, k) == Get(data, k)
  {
    var imagenes := Get(data, "imagenes");
    data["slug" := Str(slug)]["imagenes" := if imagenes.Arr? then imagenes else Arr([])]
  }

  /** Whatever slug the caller sends, the record is the same. */
  lemma {:induction false} CrearOverridesSlug(data: Body, x: JVal, slug: string)
    ensures CrearData(data["slug" := x], slug) == CrearData(data, slug)
  {
  }

  /** The stored restaurant always holds its slug and an array of images. */
  lemma {:induction false} CrearStoresSlugAndImages(data: Body, slug: string)
    ensures var stored := Defined(CrearData(data, slug));
      "slug" in stored && stored["slug"] == Str(slug) && "imagenes" in stored && stored["imagenes"].Arr?
  {
    assert Get(CrearData(data, slug), "slug") == Str(slug);
  }

  /** `crear(data)`: slugifies `nombre` (which throws unless it is a string) and creates the
      record. */
  method Crear(db: Db, data: Body, slugify: Slugify, fault: Option<Failure>) returns (r: Result<Row, Failure>)
    requires db.Valid()
    modifies db
    ensures db.Valid()
    ensures !Get(data, "nombre").Str? ==> r == Err(Rethrown(CrearPrefix, SlugifyError))
    ensures Get(data, "nombre").Str? && fault.Some? ==> r == Err(Rethrown(CrearPrefix, fault.value))
    ensures Get(data, "nombre").Str? && fault.None? ==>
              var record := CrearData(data, slugify(Get(data, "nombre").s));
              if Clashes(Restaurantes, old(db.Rows(Restaurantes)), 0, record) then r == Err(Rethrown(CrearPrefix, UniqueFailed))
              else r.Ok?
    ensures r.Ok? ==> && Get(data, "nombre").Str? && fault.None?
                      && r.value == Row(old(db.NextId(Restaurantes)), Defined(CrearData(data, slugify(Get(data, "nombre").s))))
                      && db.Rows(Restaurantes) == old(db.Rows(Restaurantes))[r.value.id := r.value]
                      && db.NextId(Restaurantes) == old(db.NextId(Restaurantes)) + 1
    ensures r.Err? ==> r.error.code == None && db.Kept(Restaurantes)
    ensures db.Kept(Sugerencias) && db.Kept(Admins)
  {
    var nombre := Get(data, "nombre");
    if !nombre.Str? {
      return Err(Rethrown(CrearPrefix, SlugifyError));
    }
    var created := db.Create(Restaurantes, CrearData(data, slugify(nombre.s)), fault);
    r := Rethrow(CrearPrefix, created);
  }

  // ---------------------------------------------------------------- obtenerTodos

  /** `obtenerTodos(query)`: the restaurants the query's filter admits, newest first. */
  method ObtenerTodos(db: Db, query: Query, fault: Option<Failure>) returns (r: Result<seq<Row>, Failure>)
    ensures fault.Some? ==> r == Err(Rethrown(TodosPrefix, fault.value))
    ensures fault.None? ==> r == Ok(Listed(db.Rows(Restaurantes), Filters(query), 0, db.NextId(Restaurantes) - 1))
  {
    var filtros := BuildFiltros(query);
    var found := db.FindMany(Restaurantes, filtros, fault);
    r := Rethrow(TodosPrefix, found);
  }

  // ---------------------------------------------------------------- lookups

  /** `obtenerPorId(id)`: `Number(id)` must be an integer for the store to accept it; a missing
      row is `null`, not an error. */
  method ObtenerPorId(db: Db, id: string, fault: Option<Failure>) returns (r: Result<Option<Row>, Failure>)
    ensures ToNumber(id).None? ==> r == Err(Rethrown(PorIdPrefix, NotAnInt))
    ensures ToNumber(id).Some? && fault.Some? ==> r == Err(Rethrown(PorIdPrefix, fault.value))
    ensures ToNumber(id).Some? && fault.None? ==> var n := ToNumber(id).value;
              && r.Ok?
              && (r.value.Some? <==> n in db.Rows(Restaurantes))
              && (r.value.Some? ==> r.value.value == db.Rows(Restaurantes)[n])
  {
    var n := ToNumber(id);
    if n.None? {
      return Err(Rethrown(PorIdPrefix, NotAnInt));
    }
    var found := db.FindUnique(Restaurantes, n.value, fault);
    r := Rethrow(PorIdPrefix, found);
  }

  /** `obtenerPorSlug(slug)`: the restaurant whose unique slug is `slug`, or `null`. */
  method ObtenerPorSlug(db: Db, slug: string, fault: Option<Failure>) returns (r: Result<Option<Row>, Failure>)
    requires db.Valid()
    ensures fault.Some? ==> r == Err(Rethrown(PorSlugPrefix, fault.value))
    ensures fault.None? ==> r.Ok?
    ensures r.Ok? && r.value.Some? ==> var row := r.value.value;
              row.id in db.Rows(Restaurantes) && db.Rows(Restaurantes)[row.id] == row && Get(row.data, "slug") == Str(slug)
    ensures r.Ok? && r.value.None? ==>
              forall id | id in db.Rows(Restaurantes) :: Get(db.Rows(Restaurantes)[id].data, "slug") != Str(slug)
  {
    var found := db.FindBy(Restaurantes, "slug", Str(slug), fault);
    r := Rethrow(PorSlugPrefix, found);
  }

  // ---------------------------------------------------------------- actualizar

  /** The `data` of `actualizar`: the caller's fields, with `slug` replaced by the slug of a
      non-empty string `nombre` (undefined when there is none or when it slugifies to "") and
      `imagenes` kept only when it is an array. */
  function ActualizarData(data: Body, slugify: Slugify): (p: Body)
    ensures Get(p, "slug") != Undef <==> Renames(data) && slugify(Get(data, "nombre").s) != ""
    ensures Get(p, "slug") != Undef ==> Get(p, "slug") == Str(slugify(Get(data, "nombre").s))
    ensures Get(p, "imagenes") != Undef <==> Get(data, "imagenes").Arr?
    ensures Get(p, "imagenes") != Undef ==> Get(p, "imagenes") == Get(data, "imagenes")
    ensures forall k | k != "slug" && k != "imagenes" :: Get(p, k) == Get(data, k)
  {
    var imagenes := Get(data, "imagenes");
    data["slug" := SlugPatch(data, slugify)]["imagenes" := if imagenes.Arr? then imagenes else Undef]
  }

  /** A slug sent by the caller is never applied. */
  lemma {:induction false} CallerSlugNeverApplied(data: Body, x: JVal, slugify: Slugify)
    ensures ActualizarData(data["slug" := x], slugify) == ActualizarData(data, slugify)
  {
    assert Get(data["slug" := x], "nombre") == Get(data, "nombre");
    assert Get(data["slug" := x], "imagenes") == Get(data, "imagenes");
  }

  /** After the update the stored slug is the new name's slug when the name is a non-empty string
      with a non-empty slug, and the old slug otherwise. */
  lemma {:induction false} UpdatedSlug(stored: Body, data: Body, slugify: Slugify)
    ensures var merged := stored + Defined(ActualizarData(data, slugify));
      if Renames(data) && slugify(Get(data, "nombre").s) != "" then
        Get(merged, "slug") == Str(slugify(Get(data, "nombre").s))
      else
        Get(merged, "slug") == Get(stored, "slug")
  {
    var p := ActualizarData(data, slugify);
    assert Get(p, "slug") == Undef ==> "slug" !in Defined(p);
  }

  /** After the update the stored images are the given ones when an array was sent, and the old
      ones otherwise. */
  lemma {:induction false} UpdatedImages(stored: Body, data: Body, slugify: Slugify)
    ensures var merged := stored + Defined(ActualizarData(data, slugify));
      if Get(data, "imagenes").Arr? then Get(merged, "imagenes") == Get(data, "imagenes")
      else Get(merged, "imagenes") == Get(stored, "imagenes")
  {
    var p := ActualizarData(data, slugify);
    assert Get(p, "imagenes") == Undef ==> "imagenes" !in Defined(p);
  }

  /** Every other field is applied as given, and a field left undefined keeps its old value. */
  lemma {:induction false} UpdatedOtherField(stored: Body, data: Body, slugify: Slugify, k: string)
    requires k != "slug" && k != "imagenes"
    ensures var merged := stored + Defined(ActualizarData(data, slugify));
      if Get(data, k) != Undef then Get(merged, k) == Get(data, k) else Get(merged, k) == Get(stored, k)
  {
    var p := ActualizarData(data, slugify);
    assert Get(p, k) == Get(data, k);
  }

  /** `actualizar(id, data)`: the update of one restaurant with the patch above. */
  method Actualizar(db: Db, id: string, data: Body, slugify: Slugify, fault: Option<Failure>) returns (r: Result<Row, Failure>)
    requires db.Valid()
    modifies db
    ensures db.Valid()
    ensures ToNumber(id).None? ==> r == Err(Rethrown(ActualizarPrefix, NotAnInt))
    ensures ToNumber(id).Some? && fault.Some? ==> r == Err(Rethrown(ActualizarPrefix, fault.value))
    ensures ToNumber(id).Some? && fault.None? && ToNumber(id).value !in old(db.Rows(Restaurantes)) ==>
              r == Err(Rethrown(ActualizarPrefix, UpdateMissing))
    ensures ToNumber(id).Some? && fault.None? && ToNumber(id).value in old(db.Rows(Restaurantes)) ==>
              if Clashes(Restaurantes, old(db.Rows(Restaurantes)), ToNumber(id).value,
                         old(db.Rows(Restaurantes))[ToNumber(id).value].data + Defined(ActualizarData(data, slugify)))
              then r == Err(Rethrown(ActualizarPrefix, UniqueFailed))
              else r.Ok?
    ensures r.Ok? ==> var n := ToNumber(id).value;
                      && ToNumber(id).Some? && n in old(db.Rows(Restaurantes))
                      && r.value == Row(n, old(db.Rows(Restaurantes))[n].data + Defined(ActualizarData(data, slugify)))
                      && db.Rows(Restaurantes) == old(db.Rows(Restaurantes))[n := r.value]
    ensures r.Err? ==> r.error.code == None && db.Kept(Restaurantes)
    ensures db.NextId(Restaurantes) == old(db.NextId(Restaurantes))
    ensures db.Kept(Sugerencias) && db.Kept(Admins)
  {
    var patch := ActualizarData(data, slugify);
    var n := ToNumber(id);
    if n.None? {
      return Err(Rethrown(ActualizarPrefix, NotAnInt));
    }
    var updated := db.Update(Restaurantes, n.value, patch, fault);
    r := Rethrow(ActualizarPrefix, updated);
  }

  // ---------------------------------------------------------------- eliminar

  /** `eliminar(id)`: removes one restaurant and returns it. */
  method Eliminar(db: Db, id: string, fault: Option<Failure>) returns (r: Result<Row, Failure>)
    requires db.Valid()
    modifies db
    ensures db.Valid()
    ensures ToNumber(id).None? ==> r == Err(Rethrown(EliminarPrefix, NotAnInt))
    ensures ToNumber(id).Some? && fault.Some? ==> r == Err(Rethrown(EliminarPrefix, fault.value))
    ensures ToNumber(id).Some? && fault.None? && ToNumber(id).value !in old(db.Rows(Restaurantes)) ==>
              r == Err(Rethrown(EliminarPrefix, DeleteMissing))
    ensures r.Ok? <==> ToNumber(id).Some? && fault.None? && ToNumber(id).value in old(db.Rows(Restaurantes))
    ensures r.Ok? ==> var n := ToNumber(id).value;
                      r.value == old(db.Rows(Restaurantes))[n] && db.Rows(Restaurantes) == old(db.Rows(Restaurantes)) - {n}
    ensures r.Err? ==> r.error.code == None && db.Kept(Restaurantes)
    ensures db.NextId(Restaurantes) == old(db.NextId(Restaurantes))
    ensures db.Kept(Sugerencias) && db.Kept(Admins)
  {
    var n := ToNumber(id);
    if n.None? {
      return Err(Rethrown(EliminarPrefix, NotAnInt));
    }
    var deleted := db.Delete(Restaurantes, n.value, fault);
    r := Rethrow(EliminarPrefix, deleted);
  }
}
