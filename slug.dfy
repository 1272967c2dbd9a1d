/** The slug both services derive from a name. */
module Slug {
  import opened Wrappers
  import opened Json
  import opened Store

  /** `slugify(text, { lower: true, strict: true })`. The library is not part of this model, so
      each operation that needs it takes it as a parameter. */
  type Slugify = string -> string

  /** What `slugify` throws when its argument is not a string. */
  const SlugifyError: Failure := Failure("slugify: string argument expected", None)

  /** `data.nombre && typeof data.nombre === "string"`: the one case in which an update recomputes
      the slug. */
  predicate Renames(data: Body) {
    Get(data, "nombre").Str? && Get(data, "nombre").s != ""
  }

  /** The `slug` member of an update's `data`: `actualizaSlug || undefined`, where `actualizaSlug`
      is the slug of a renaming `nombre` and undefined otherwise. */
  function SlugPatch(data: Body, slugify: Slugify): (v: JVal)
    ensures v != Undef <==> Renames(data) && slugify(Get(data, "nombre").s) != ""
    ensures v != Undef ==> v == Str(slugify(Get(data, "nombre").s))
  {
    var nombre := Get(data, "nombre");
    var actualizaSlug := if Truthy(nombre) && nombre.Str? then Str(slugify(nombre.s)) else Undef;
    Or(actualizaSlug, Undef)
  }
}
