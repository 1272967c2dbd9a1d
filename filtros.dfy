/** The query-string filter of the restaurant listing, built the same way in the service and in
    the controller: each of twenty query parameters, when truthy, adds one condition to `where`. */
module Filtros {
  import opened Json
  import opened JsString
  import opened Store
  import opened Checks

  /** `req.query`, read as strings. */
  type Query = map<string, string>

  /** A destructured query parameter. An absent one is `undefined`, falsy exactly as "" is, so
      both read as "". */
  function QueryValue(query: Query, key: string): string {
    if key in query then query[key] else ""
  }

  /** The text columns, matched by case-insensitive substring. */
  const TextKeys: seq<string> := ["direccion", "ciudad", "provincia", "localidad"]

  /** The flag columns: the 14 amenities, then `activo` and `verificado`. */
  const FlagKeys: seq<string> := Amenities + ["activo", "verificado"]

  /** Every destructured parameter, in the order of the guards. */
  const FilterKeys: seq<string> := TextKeys + FlagKeys

  /** The condition a truthy parameter contributes: `{ contains: v, mode: "insensitive" }` for a
      text column, `v === "true"` for a flag. */
  function FilterFor(key: string, value: string): (f: Filter)
    ensures key in TextKeys ==> f == Contains(value)
    ensures key !in TextKeys ==> f == Equals(value == "true")
  {
    if key in TextKeys then Contains(value) else Equals(value == "true")
  }

  /** What the first `n` guards put into the filter. */
  ghost function Contributed(query: Query, n: nat): map<string, Filter>
    requires n <= |FilterKeys|
  {
    map k | k in FilterKeys[..n] && QueryValue(query, k) != "" :: FilterFor(k, QueryValue(query, k))
  }

  /** The filter the whole query yields. */
  ghost function Filters(query: Query): map<string, Filter> {
    Contributed(query, |FilterKeys|)
  }

  /** Each guard adds at most its own key. */
  lemma {:induction false} ContributedNext(query: Query, n: nat)
    requires n < |FilterKeys|
    ensures var key := FilterKeys[n]; var value := QueryValue(query, key);
      Contributed(query, n + 1) ==
        if value != "" then Contributed(query, n)[key := FilterFor(key, value)] else Contributed(query, n)
  {
    assert FilterKeys[..n + 1] == FilterKeys[..n] + [FilterKeys[n]];
  }

  /** The twenty guards `if (value) filtros.key = ...`, in source order. */
  method BuildFiltros(query: Query) returns (filtros: map<string, Filter>)
    ensures filtros == Filters(query)
  {
    filtros := map[];
    for i := 0 to |FilterKeys|
      invariant filtros == Contributed(query, i)
    {
      var key := FilterKeys[i];
      var value := QueryValue(query, key);
      ContributedNext(query, i);
      if value != "" {
        if key in TextKeys {
          filtros := filtros[key := Contains(value)];
        } else {
          filtros := filtros[key := Equals(value == "true")];
        }
      }
    }
  }

  /** A condition is present exactly for the twenty parameters whose value is truthy: absence and
      "" leave the key out, any other string puts it in. */
  lemma {:induction false} FilterPresentIffTruthy(query: Query, key: string)
    ensures key in Filters(query) <==> key in FilterKeys && QueryValue(query, key) != ""
  {
    assert FilterKeys[..|FilterKeys|] == FilterKeys;
  }

  /** A text parameter filters its column by case-insensitive containment of the given value. */
  lemma {:induction false} TextFilterContains(query: Query, key: string)
    requires key in TextKeys && QueryValue(query, key) != ""
    ensures key in Filters(query) && Filters(query)[key] == Contains(query[key])
  {
    FilterPresentIffTruthy(query, key);
    assert key in FilterKeys;
  }

  /** A flag parameter filters for `true` only when its value is exactly "true": "false", "1" or
      any other non-empty string filters for `false`. */
  lemma {:induction false} FlagFilterValue(query: Query, key: string)
    requires key in FlagKeys && QueryValue(query, key) != ""
    ensures key in Filters(query) && Filters(query)[key] == Equals(query[key] == "true")
  {
    assert key in FilterKeys;
    FilterPresentIffTruthy(query, key);
    FlagsAreNotText(key);
  }

  /** No flag name is a text column name. */
  lemma {:induction false} FlagsAreNotText(key: string)
    requires key in FlagKeys
    ensures key !in TextKeys
  {
  }

  /** `?activo=false` lists the inactive restaurants; it does not lift the filter. */
  lemma {:induction false} FalseStringFiltersFalse(query: Query)
    requires QueryValue(query, "activo") == "false"
    ensures "activo" in Filters(query) && Filters(query)["activo"] == Equals(false)
  {
    assert "activo" in FlagKeys;
    FlagFilterValue(query, "activo");
  }

  /** Parameters outside the twenty destructured names never reach the filter. */
  lemma {:induction false} UnknownParametersIgnored(query: Query, key: string, value: string)
    requires key !in FilterKeys
    ensures Filters(query[key := value]) == Filters(query)
  {
    assert forall k | k in FilterKeys :: QueryValue(query[key := value], k) == QueryValue(query, k);
  }

  /** A stored restaurant is listed exactly when every truthy text parameter occurs in its column,
      ignoring case, and every truthy flag parameter equals its column. */
  lemma {:induction false} MatchesFilters(query: Query, row: Row)
    ensures Matches(row, Filters(query)) <==>
      (forall k | k in FilterKeys && QueryValue(query, k) != "" ::
         Satisfies(Get(row.data, k), FilterFor(k, QueryValue(query, k))))
  {
    forall k
      ensures k in Filters(query) <==> k in FilterKeys && QueryValue(query, k) != ""
    {
      FilterPresentIffTruthy(query, k);
    }
  }
}
