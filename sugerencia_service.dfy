/** The suggestion service: builds the record or the patch, makes one store call, and rethrows
    any failure with a prefix of its own. */
module SugerenciaService {
  import opened Wrappers
  import opened Json
  import opened JsString
  import opened Store
  import opened Checks
  import opened Slug

  const CrearPrefix: string := "Error creando sugerencia: "
  const TodasPrefix: string := "Error obteniendo sugerencias: "
  const PorIdPrefix: string := "Error obteniendo sugerencia por ID: "
  const ActualizarPrefix: string := "Error actualizando sugerencia: "
  const EliminarPrefix: string := "Error eliminando sugerencia: "

  // ---------------------------------------------------------------- crearSugerencia

  /** The fields `crearSugerencia` copies as given. */
  const Copied: set<string> := {"nombre", "direccion", "descripcion", "localidad", "ciudad", "provincia", "nombreContacto"}

  /** The fields that default to `null` when falsy. */
  const Nullable: set<string> := {"emailContacto", "comentarios"}

  /** The 14 amenity flags, which default to `false` when falsy. */
  const Flags: set<string> := {
    "zonaAmplia", "parqueCercano", "zonaInfantil", "tronaDisponible", "cambiadorDisponible",
    "sitioParaCarrito", "terrazaSegura", "actividadesParaNinos", "menuInfantil", "aptoVegetariano",
    "aptoVegano", "sinPantallas", "ambienteFamiliar", "accesibleConCarrito"
  }

  /** The record's flags are exactly the amenities the validator checks. */
  lemma {:induction false} FlagsAreAmenities()
    ensures forall f :: f in Flags <==> f in Amenities
  {
  }

  /** Every member of the record `crearSugerencia` builds. */
  const Columns: set<string> := Copied + Nullable + Flags + {"slug"}

  /** No field falls in two of the groups. */
  lemma {:induction false} GroupsDisjoint()
    ensures forall k | k in Copied :: k !in Flags && k !in Nullable && k != "slug"
    ensures forall k | k in Nullable :: k !in Flags && k != "slug"
    ensures "slug" !in Flags
  {
  }

  /** The record of `crearSugerencia`: the listed fields only, `|| null` on the contact e-mail and
      the comments, `|| false` on each flag, and the slug of the name. */
  function SugerenciaData(data: Body, slug: string): (r: Body)
    ensures forall k :: k in r <==> k in Columns
    ensures forall k | k in Copied :: r[k] == Get(data, k)
    ensures forall k | k in Nullable :: Truthy(Get(data, k)) ==> r[k] == Get(data, k)
    ensures forall k | k in Nullable :: !Truthy(Get(data, k)) ==> r[k] == Null
    ensures forall k | k in Flags :: Truthy(Get(data, k)) ==> r[k] == Get(data, k)
    ensures forall k | k in Flags :: !Truthy(Get(data, k)) ==> r[k] == Bool(false)
    ensures r["slug"] == Str(slug)
  {
    GroupsDisjoint();
    Record(data, slug)
  }

  /** The record as a map over its members. */
  function Record(data: Body, slug: string): Body {
    map k | k in Columns :: Member(k, Get(data, k), slug)
  }

  /** The value the record gives member `k` when the caller sent `v` for it. */
  function Member(k: string, v: JVal, slug: string): JVal {
    if k == "slug" then Str(slug)
    else if k in Flags then Or(v, Bool(false))
    else if k in Nullable then Or(v, Null)
    else v
  }

  /** The record depends on the listed fields only (the slug is computed apart). */
  lemma {:induction false} RecordReadsColumns(d1: Body, d2: Body, slug: string)
    requires forall c | c in Columns && c != "slug" :: Get(d1, c) == Get(d2, c)
    ensures Record(d1, slug) == Record(d2, slug)
  {
    forall c | c in Columns
      ensures Member(c, Get(d1, c), slug) == Member(c, Get(d2, c), slug)
    {
    }
  }

  /** A key outside the listed fields never reaches the store. */
  lemma {:induction false} OtherKeysDropped(data: Body, slug: string, k: string, x: JVal)
    requires k !in Columns
    ensures SugerenciaData(data[k := x], slug) == SugerenciaData(data, slug)
  {
    RecordReadsColumns(data[k := x], data, slug);
  }

  /** A flag sent as the string "false" is truthy, so it is stored as that string, not as `false`. */
  lemma {:induction false} FalseStringFlagKept(data: Body, slug: string, f: string)
    requires f in Flags && Get(data, f) == Str("false")
    ensures SugerenciaData(data, slug)[f] == Str("false")
  {
  }

  /** `crearSugerencia(data)`: slugifies `nombre` (which throws unless it is a string) and creates
      the record; suggestions have no unique column, so the store accepts any record. */
  method CrearSugerencia(db: Db, data: Body, slugify: Slugify, fault: Option<Failure>) returns (r: Result<Row, Failure>)
    requires db.Valid()
    modifies db
    ensures db.Valid()
    ensures !Get(data, "nombre").Str? ==> r == Err(Rethrown(CrearPrefix, SlugifyError))
    ensures Get(data, "nombre").Str? && fault.Some? ==> r == Err(Rethrown(CrearPrefix, fault.value))
    ensures r.Ok? <==> Get(data, "nombre").Str? && fault.None?
    ensures r.Ok? ==> && r.value == Row(old(db.NextId(Sugerencias)), Defined(SugerenciaData(data, slugify(Get(data, "nombre").s))))
                      && db.Rows(Sugerencias) == old(db.Rows(Sugerencias))[r.value.id := r.value]
                      && db.NextId(Sugerencias) == old(db.NextId(Sugerencias)) + 1
    ensures r.Err? ==> r.error.code == None && db.Kept(Sugerencias)
    ensures db.Kept(Restaurantes) && db.Kept(Admins)
  {
    var nombre := Get(data, "nombre");
    if !nombre.Str? {
      return Err(Rethrown(CrearPrefix, SlugifyError));
    }
    var created := db.Create(Sugerencias, SugerenciaData(data, slugify(nombre.s)), fault);
    r := Rethrow(CrearPrefix, created);
  }

  // ---------------------------------------------------------------- lookups

  /** `obtenerSugerencias()`: every suggestion, newest first. */
  method ObtenerSugerencias(db: Db, fault: Option<Failure>) returns (r: Result<seq<Row>, Failure>)
    ensures fault.Some? ==> r == Err(Rethrown(TodasPrefix, fault.value))
    ensures fault.None? ==> r == Ok(Listed(db.Rows(Sugerencias), map[], 0, db.NextId(Sugerencias) - 1))
  {
    var found := db.FindMany(Sugerencias, map[], fault);
    r := Rethrow(TodasPrefix, found);
  }

  /** `obtenerPorId(id)`: `Number(id)` must be an integer for the store to accept it; a missing
      row is `null`, not an error. */
  method ObtenerPorId(db: Db, id: string, fault: Option<Failure>) returns (r: Result<Option<Row>, Failure>)
    ensures ToNumber(id).None? ==> r == Err(Rethrown(PorIdPrefix, NotAnInt))
    ensures ToNumber(id).Some? && fault.Some? ==> r == Err(Rethrown(PorIdPrefix, fault.value))
    ensures ToNumber(id).Some? && fault.None? ==> var n := ToNumber(id).value;
              && r.Ok?
              && (r.value.Some? <==> n in db.Rows(Sugerencias))
              && (r.value.Some? ==> r.value.value == db.Rows(Sugerencias)[n])
  {
    var n := ToNumber(id);
    if n.None? {
      return Err(Rethrown(PorIdPrefix, NotAnInt));
    }
    var found := db.FindUnique(Sugerencias, n.value, fault);
    r := Rethrow(PorIdPrefix, found);
  }

  // ---------------------------------------------------------------- actualizarSugerencia

  /** The `data` of `actualizarSugerencia`: the caller's fields, with `slug` replaced by the slug
      of a renaming `nombre` and undefined otherwise. */
  function ActualizarData(data: Body, slugify: Slugify): (p: Body)
    ensures Get(p, "slug") != Undef <==> Renames(data) && slugify(Get(data, "nombre").s) != ""
    ensures Get(p, "slug") != Undef ==> Get(p, "slug") == Str(slugify(Get(data, "nombre").s))
    ensures forall k | k != "slug" :: Get(p, k) == Get(data, k)
  {
    data["slug" := SlugPatch(data, slugify)]
  }

  /** A slug sent by the caller is never applied. */
  lemma {:induction false} CallerSlugNeverApplied(data: Body, x: JVal, slugify: Slugify)
    ensures ActualizarData(data["slug" := x], slugify) == ActualizarData(data, slugify)
  {
    assert Get(data["slug" := x], "nombre") == Get(data, "nombre");
  }

  /** After the update the stored slug is the new name's slug when the name is a non-empty string
      with a non-empty slug, and the old slug otherwise. */
  lemma {:induction false} UpdatedSlug(stored: Body, data: Body, slugify: Slugify)
    ensures var merged := stored + Defined(ActualizarData(data, slugify));
      if Renames(data) && slugify(Get(data, "nombre").s) != "" then
        Get(merged, "slug") == Str(slugify(Get(data, "nombre").s))
      else
        Get(merged, "slug") == Get(stored, "slug")
  {
    var p := ActualizarData(data, slugify);
    assert Get(p, "slug") == Undef ==> "slug" !in Defined(p);
  }

  /** Every other field is applied as given, and a field left undefined keeps its old value. */
  lemma {:induction false} UpdatedOtherField(stored: Body, data: Body, slugify: Slugify, k: string)
    requires k != "slug"
    ensures var merged := stored + Defined(ActualizarData(data, slugify));
      if Get(data, k) != Undef then Get(merged, k) == Get(data, k) else Get(merged, k) == Get(stored, k)
  {
    var p := ActualizarData(data, slugify);
    assert Get(p, k) == Get(data, k);
  }

  /** `actualizarSugerencia(id, data)`: the update of one suggestion with the patch above. */
  method ActualizarSugerencia(db: Db, id: string, data: Body, slugify: Slugify, fault: Option<Failure>) returns (r: Result<Row, Failure>)
    requires db.Valid()
    modifies db
    ensures db.Valid()
    ensures ToNumber(id).None? ==> r == Err(Rethrown(ActualizarPrefix, NotAnInt))
    ensures ToNumber(id).Some? && fault.Some? ==> r == Err(Rethrown(ActualizarPrefix, fault.value))
    ensures ToNumber(id).Some? && fault.None? && ToNumber(id).value !in old(db.Rows(Sugerencias)) ==>
              r == Err(Rethrown(ActualizarPrefix, UpdateMissing))
    ensures r.Ok? <==> ToNumber(id).Some? && fault.None? && ToNumber(id).value in old(db.Rows(Sugerencias))
    ensures r.Ok? ==> var n := ToNumber(id).value;
                      && r.value == Row(n, old(db.Rows(Sugerencias))[n].data + Defined(ActualizarData(data, slugify)))
                      && db.Rows(Sugerencias) == old(db.Rows(Sugerencias))[n := r.value]
    ensures r.Err? ==> r.error.code == None && db.Kept(Sugerencias)
    ensures db.NextId(Sugerencias) == old(db.NextId(Sugerencias))
    ensures db.Kept(Restaurantes) && db.Kept(Admins)
  {
    var patch := ActualizarData(data, slugify);
    var n := ToNumber(id);
    if n.None? {
      return Err(Rethrown(ActualizarPrefix, NotAnInt));
    }
    var updated := db.Update(Sugerencias, n.value, patch, fault);
    r := Rethrow(ActualizarPrefix, updated);
  }

  // ---------------------------------------------------------------- eliminar

  /** `eliminar(id)`: removes one suggestion and returns it. */
  method Eliminar(db: Db, id: string, fault: Option<Failure>) returns (r: Result<Row, Failure>)
    requires db.Valid()
    modifies db
    ensures db.Valid()
    ensures ToNumber(id).None? ==> r == Err(Rethrown(EliminarPrefix, NotAnInt))
    ensures ToNumber(id).Some? && fault.Some? ==> r == Err(Rethrown(EliminarPrefix, fault.value))
    ensures ToNumber(id).Some? && fault.None? && ToNumber(id).value !in old(db.Rows(Sugerencias)) ==>
              r == Err(Rethrown(EliminarPrefix, DeleteMissing))
    ensures r.Ok? <==> ToNumber(id).Some? && fault.None? && ToNumber(id).value in old(db.Rows(Sugerencias))
    ensures r.Ok? ==> var n := ToNumber(id).value;
                      r.value == old(db.Rows(Sugerencias))[n] && db.Rows(Sugerencias) == old(db.Rows(Sugerencias)) - {n}
    ensures r.Err? ==> r.error.code == None && db.Kept(Sugerencias)
    ensures db.NextId(Sugerencias) == old(db.NextId(Sugerencias))
    ensures db.Kept(Restaurantes) && db.Kept(Admins)
  {
    var n := ToNumber(id);
    if n.None? {
      return Err(Rethrown(EliminarPrefix, NotAnInt));
    }
    var deleted := db.Delete(Sugerencias, n.value, fault);
    r := Rethrow(EliminarPrefix, deleted);
  }
}
