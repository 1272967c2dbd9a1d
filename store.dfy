/** The persistence layer the handlers call through Prisma, as an in-memory store of three tables.
    Every call takes `fault`: a failure the database may raise on that call (a lost connection, a
    rejected value), so that each error path of the callers can be reached. */
module Store {
  import opened Wrappers
  import opened Json
  import opened JsString

  datatype Table = Restaurantes | Sugerencias | Admins

  /** A stored record: its autoincrement id and its columns. */
  datatype Row = Row(id: int, data: Body)

  /** A thrown error: Prisma's errors carry a `code`, an `Error` created by the services does not. */
  datatype Failure = Failure(message: string, code: Option<string>)

  /** Prisma's code for "the record to update or delete does not exist". */
  const NotFound: string := "P2025"
  /** Prisma's code for a unique-constraint violation. */
  const Conflict: string := "P2002"

  /** The errors the store itself raises. */
  const UniqueFailed: Failure := Failure("Unique constraint failed", Some(Conflict))
  const UpdateMissing: Failure := Failure("Record to update not found.", Some(NotFound))
  const DeleteMissing: Failure := Failure("Record to delete does not exist.", Some(NotFound))

  /** Prisma's rejection of an `id` that is not an integer (`Number` gave NaN or a fraction): a
      validation error, which carries no code. */
  const NotAnInt: Failure := Failure("Invalid value provided. Expected Int", None)

  /** `throw new Error(prefix + error.message)` in a service's `catch`: the message survives behind
      the prefix, the code does not. */
  function Rethrown(prefix: string, e: Failure): (f: Failure)
    ensures f.code == None
    ensures |f.message| == |prefix| + |e.message|
    ensures f.message[..|prefix|] == prefix && f.message[|prefix|..] == e.message
  {
    Failure(prefix + e.message, None)
  }

  /** A service's `try`/`catch` around one store call: the value passes, the error is rethrown. */
  function Rethrow<T>(prefix: string, r: Result<T, Failure>): (w: Result<T, Failure>)
    ensures w.Ok? <==> r.Ok?
    ensures r.Ok? ==> w == r
    ensures r.Err? ==> w.error == Rethrown(prefix, r.error) && w.error.code == None
  {
    match r
    case Ok(v) => Ok(v)
    case Err(e) => Err(Rethrown(prefix, e))
  }

  /** A row as a handler sends it back: its columns and its id. */
  function RowJson(row: Row): (v: JVal)
    ensures v.Obj? && "id" in v.fields && v.fields["id"] == Num(row.id as real)
    ensures forall k | k in row.data && k != "id" :: k in v.fields && v.fields[k] == row.data[k]
    ensures forall k | k in v.fields :: k == "id" || k in row.data
  {
    Obj(row.data["id" := Num(row.id as real)])
  }

  /** A list of rows as a handler sends it back, in the same order. */
  function RowsJson(rows: seq<Row>): (v: seq<JVal>)
    ensures |v| == |rows| && forall i | 0 <= i < |rows| :: v[i] == RowJson(rows[i])
  {
    seq(|rows|, i requires 0 <= i < |rows| => RowJson(rows[i]))
  }

  /** A `where` condition on one column. */
  datatype Filter =
    | Contains(text: string)  // { contains: text, mode: "insensitive" }
    | Equals(flag: bool)      // a boolean column equal to `flag`

  predicate Satisfies(v: JVal, f: Filter) {
    match f
    case Contains(t) => v.Str? && ContainsInsensitive(v.s, t)
    case Equals(b) => v == Bool(b)
  }

  /** `row` passes every condition of `where`. */
  predicate Matches(row: Row, where: map<string, Filter>) {
    forall k | k in where :: Satisfies(Get(row.data, k), where[k])
  }

  /** Columns declared unique: the restaurant slug (looked up with `findUnique`) and the admin
      email (looked up with `findUnique`, and checked for duplicates on registration). */
  function UniqueColumns(t: Table): set<string> {
    match t
    case Restaurantes => {"slug"}
    case Sugerencias => {}
    case Admins => {"email"}
  }

  /** A value a unique index takes into account (NULL never collides). */
  predicate Indexed(v: JVal) {
    v != Undef && v != Null
  }

  /** Storing `data` under `except` would give a unique column a value another row already has. */
  predicate Clashes(t: Table, rows: map<int, Row>, except: int, data: Body) {
    exists id, k | id in rows && k in UniqueColumns(t) ::
      id != except && k in data && Indexed(data[k]) && Get(rows[id].data, k) == data[k]
  }

  /** The shape every table keeps: ids below the counter, each row under its own id, no undefined
      column, and unique columns unique. */
  ghost predicate TableValid(t: Table, rows: map<int, Row>, next: int) {
    && next >= 1
    && (forall id | id in rows :: 1 <= id < next && rows[id].id == id)
    && (forall id, k | id in rows && k in rows[id].data :: rows[id].data[k] != Undef)
    && (forall a, b, k | a in rows && b in rows && k in UniqueColumns(t) && k in rows[a].data ::
          a != b && Indexed(rows[a].data[k]) ==> Get(rows[b].data, k) != rows[a].data[k])
  }

  class Db {
    var restaurantes: map<int, Row>
    var sugerencias: map<int, Row>
    var admins: map<int, Row>
    var nextRestaurante: int
    var nextSugerencia: int
    var nextAdmin: int

    function Rows(t: Table): map<int, Row>
      reads this
    {
      match t
      case Restaurantes => restaurantes
      case Sugerencias => sugerencias
      case Admins => admins
    }

    function NextId(t: Table): int
      reads this
    {
      match t
      case Restaurantes => nextRestaurante
      case Sugerencias => nextSugerencia
      case Admins => nextAdmin
    }

    ghost predicate Valid()
      reads this
    {
      && TableValid(Restaurantes, Rows(Restaurantes), NextId(Restaurantes))
      && TableValid(Sugerencias, Rows(Sugerencias), NextId(Sugerencias))
      && TableValid(Admins, Rows(Admins), NextId(Admins))
    }

    constructor ()
      ensures Valid()
      ensures forall t :: Rows(t) == map[] && NextId(t) == 1
    {
      restaurantes, sugerencias, admins := map[], map[], map[];
      nextRestaurante, nextSugerencia, nextAdmin := 1, 1, 1;
    }

    /** Table `t` and its counter are what they were when the call began. */
    twostate predicate Kept(t: Table)
      reads this
    {
      Rows(t) == old(Rows(t)) && NextId(t) == old(NextId(t))
    }

    /** Replaces table `t` and its counter, leaving the other two tables alone. */
    method SetTable(t: Table, rows: map<int, Row>, next: int)
      modifies this
      ensures Rows(t) == rows && NextId(t) == next
      ensures forall u | u != t :: Rows(u) == old(Rows(u)) && NextId(u) == old(NextId(u))
    {
      match t
      case Restaurantes => restaurantes, nextRestaurante := rows, next;
      case Sugerencias => sugerencias, nextSugerencia := rows, next;
      case Admins => admins, nextAdmin := rows, next;
    }

    /** `prisma.<t>.create({ data })`: a new row under the next id, undefined members left out. */
    method Create(t: Table, data: Body, fault: Option<Failure>) returns (r: Result<Row, Failure>)
      requires Valid()
      modifies this
      ensures Valid()
      ensures fault.Some? ==> r == Err(fault.value)
      ensures fault.None? && Clashes(t, old(Rows(t)), 0, data) ==> r == Err(UniqueFailed)
      ensures r.Ok? <==> fault.None? && !Clashes(t, old(Rows(t)), 0, data)
      ensures r.Ok? ==> && r.value == Row(old(NextId(t)), Defined(data))
                        && Rows(t) == old(Rows(t))[r.value.id := r.value]
                        && NextId(t) == old(NextId(t)) + 1
      ensures r.Err? ==> Rows(t) == old(Rows(t)) && NextId(t) == old(NextId(t))
      ensures forall u | u != t :: Rows(u) == old(Rows(u)) && NextId(u) == old(NextId(u))
    {
      if fault.Some? {
        return Err(fault.value);
      }
      if Clashes(t, Rows(t), 0, data) {
        return Err(UniqueFailed);
      }
      var row := Row(NextId(t), Defined(data));
      ghost var rows := Rows(t);
      assert TableValid(t, rows, NextId(t));
      SetTable(t, Rows(t)[row.id := row], NextId(t) + 1);
      InsertKeepsTableValid(t, rows, old(NextId(t)), row);
      r := Ok(row);
    }

    /** `prisma.<t>.findUnique({ where: { id } })`: `None` when no row has that id. */
    method FindUnique(t: Table, id: int, fault: Option<Failure>) returns (r: Result<Option<Row>, Failure>)
      ensures fault.Some? ==> r == Err(fault.value)
      ensures fault.None? ==> r.Ok? && (r.value.Some? <==> id in Rows(t))
      ensures r.Ok? && r.value.Some? ==> id in Rows(t) && r.value.value == Rows(t)[id]
    {
      if fault.Some? {
        return Err(fault.value);
      }
      if id in Rows(t) {
        r := Ok(Some(Rows(t)[id]));
      } else {
        r := Ok(None);
      }
    }

    /** `prisma.<t>.findUnique({ where: { [column]: value } })` on a unique column: scans the ids
        and returns the row whose column holds `value`, if there is one. */
    method FindBy(t: Table, column: string, value: JVal, fault: Option<Failure>) returns (r: Result<Option<Row>, Failure>)
      requires Valid()
      ensures fault.Some? ==> r == Err(fault.value)
      ensures fault.None? ==> r.Ok?
      ensures r.Ok? && r.value.Some? ==> var row := r.value.value;
                row.id in Rows(t) && Rows(t)[row.id] == row && Get(row.data, column) == value
      ensures r.Ok? && r.value.None? ==> forall id | id in Rows(t) :: Get(Rows(t)[id].data, column) != value
    {
      if fault.Some? {
        return Err(fault.value);
      }
      var rows := Rows(t);
      var id := 1;
      while id < NextId(t)
        invariant 1 <= id <= NextId(t)
        invariant forall j | j in rows && j < id :: Get(rows[j].data, column) != value
      {
        if id in rows && Get(rows[id].data, column) == value {
          return Ok(Some(rows[id]));
        }
        id := id + 1;
      }
      r := Ok(None);
    }

    /** `prisma.<t>.findMany({ where, orderBy: { createdAt: "desc" } })`: the matching rows,
        newest first. Ids grow with each insert, so the newest row has the largest id. */
    method FindMany(t: Table, where: map<string, Filter>, fault: Option<Failure>) returns (r: Result<seq<Row>, Failure>)
      ensures fault.Some? ==> r == Err(fault.value)
      ensures fault.None? ==> r == Ok(Listed(Rows(t), where, 0, NextId(t) - 1))
    {
      if fault.Some? {
        return Err(fault.value);
      }
      var rows := Rows(t);
      var top := NextId(t) - 1;
      var found: seq<Row> := [];
      var lo := top;
      while lo > 0
        invariant lo <= top && (top >= 0 ==> lo >= 0) && (top < 0 ==> lo == top)
        invariant found == Listed(rows, where, lo, top)
      {
        lo := lo - 1;
        if lo + 1 in rows && Matches(rows[lo + 1], where) {
          found := found + [rows[lo + 1]];
        }
      }
      r := Ok(found);
    }

    /** `prisma.<t>.update({ where: { id }, data: patch })`: the patch's defined members overwrite
        the row's; P2025 when there is no such row. */
    method Update(t: Table, id: int, patch: Body, fault: Option<Failure>) returns (r: Result<Row, Failure>)
      requires Valid()
      modifies this
      ensures Valid()
      ensures fault.Some? ==> r == Err(fault.value)
      ensures fault.None? && id !in old(Rows(t)) ==> r == Err(UpdateMissing)
      ensures r.Ok? ==> && id in old(Rows(t))
                        && r.value == Row(id, old(Rows(t))[id].data + Defined(patch))
                        && Rows(t) == old(Rows(t))[id := r.value]
      ensures fault.None? && id in old(Rows(t)) && !Clashes(t, old(Rows(t)), id, old(Rows(t))[id].data + Defined(patch)) ==> r.Ok?
      ensures fault.None? && id in old(Rows(t)) && Clashes(t, old(Rows(t)), id, old(Rows(t))[id].data + Defined(patch)) ==> r == Err(UniqueFailed)
      ensures r.Err? ==> Rows(t) == old(Rows(t))
      ensures NextId(t) == old(NextId(t))
      ensures forall u | u != t :: Rows(u) == old(Rows(u)) && NextId(u) == old(NextId(u))
    {
      if fault.Some? {
        return Err(fault.value);
      }
      if id !in Rows(t) {
        return Err(UpdateMissing);
      }
      var merged := Rows(t)[id].data + Defined(patch);
      if Clashes(t, Rows(t), id, merged) {
        return Err(UniqueFailed);
      }
      var row := Row(id, merged);
      ghost var rows := Rows(t);
      assert TableValid(t, rows, NextId(t));
      SetTable(t, Rows(t)[id := row], NextId(t));
      ReplaceKeepsTableValid(t, rows, old(NextId(t)), row);
      r := Ok(row);
    }

    /** `prisma.<t>.delete({ where: { id } })`: removes the row and returns it; P2025 when there
        is no such row. */
    method Delete(t: Table, id: int, fault: Option<Failure>) returns (r: Result<Row, Failure>)
      requires Valid()
      modifies this
      ensures Valid()
      ensures fault.Some? ==> r == Err(fault.value)
      ensures fault.None? && id !in old(Rows(t)) ==> r == Err(DeleteMissing)
      ensures r.Ok? <==> fault.None? && id in old(Rows(t))
      ensures r.Ok? ==> r.value == old(Rows(t))[id] && Rows(t) == old(Rows(t)) - {id}
      ensures r.Err? ==> Rows(t) == old(Rows(t))
      ensures NextId(t) == old(NextId(t))
      ensures forall u | u != t :: Rows(u) == old(Rows(u)) && NextId(u) == old(NextId(u))
    {
      if fault.Some? {
        return Err(fault.value);
      }
      if id !in Rows(t) {
        return Err(DeleteMissing);
      }
      var row := Rows(t)[id];
      SetTable(t, Rows(t) - {id}, NextId(t));
      r := Ok(row);
    }
  }

  /** The rows with ids in `lo + 1 .. hi` that pass `where`, largest id first. */
  ghost function Listed(rows: map<int, Row>, where: map<string, Filter>, lo: int, hi: int): seq<Row>
    decreases hi - lo
  {
    if hi <= lo then []
    else Listed(rows, where, lo + 1, hi) + (if lo + 1 in rows && Matches(rows[lo + 1], where) then [rows[lo + 1]] else [])
  }

  /** In a valid table every listed row is a stored row, under its own id in the range, that
      passes the filter. */
  lemma {:induction false} ListedAreStoredMatches(t: Table, rows: map<int, Row>, next: int, where: map<string, Filter>, lo: int, hi: int)
    requires TableValid(t, rows, next)
    ensures forall row | row in Listed(rows, where, lo, hi) ::
              lo < row.id <= hi && row.id in rows && rows[row.id] == row && Matches(row, where)
    decreases hi - lo
  {
    if lo < hi {
      ListedAreStoredMatches(t, rows, next, where, lo + 1, hi);
      if lo + 1 in rows {
        assert rows[lo + 1].id == lo + 1;
      }
    }
  }

  /** Every stored row in the range that passes the filter is listed. */
  lemma {:induction false} ListedComplete(rows: map<int, Row>, where: map<string, Filter>, lo: int, hi: int, id: int)
    requires id in rows && lo < id <= hi && Matches(rows[id], where)
    ensures rows[id] in Listed(rows, where, lo, hi)
    decreases hi - lo
  {
    if lo + 1 < id {
      ListedComplete(rows, where, lo + 1, hi, id);
    }
  }

  /** In a valid table at most one row holds a given indexed value of a unique column. */
  lemma {:induction false} UniqueHolder(t: Table, rows: map<int, Row>, next: int, k: string, v: JVal, a: int, b: int)
    requires TableValid(t, rows, next) && k in UniqueColumns(t) && Indexed(v)
    requires a in rows && b in rows && Get(rows[a].data, k) == v && Get(rows[b].data, k) == v
    ensures a == b
  {
    assert k in rows[a].data;
  }

  /** In a valid table the listing is in strictly decreasing id order: newest first, no repeats. */
  lemma {:induction false} ListedDescending(t: Table, rows: map<int, Row>, next: int, where: map<string, Filter>, lo: int, hi: int)
    requires TableValid(t, rows, next)
    ensures forall i, j | 0 <= i < j < |Listed(rows, where, lo, hi)| ::
              Listed(rows, where, lo, hi)[i].id > Listed(rows, where, lo, hi)[j].id
    decreases hi - lo
  {
    if lo < hi {
      ListedDescending(t, rows, next, where, lo + 1, hi);
      ListedAreStoredMatches(t, rows, next, where, lo + 1, hi);
      var rest := Listed(rows, where, lo + 1, hi);
      var list := Listed(rows, where, lo, hi);
      var last := if lo + 1 in rows && Matches(rows[lo + 1], where) then [rows[lo + 1]] else [];
      assert list == rest + last;
      forall i, j | 0 <= i < j < |list|
        ensures list[i].id > list[j].id
      {
        if j >= |rest| {
          assert list[j] == last[0] == rows[lo + 1] && rows[lo + 1].id == lo + 1;
          assert list[i] == rest[i] && rest[i] in rest;
          assert rest[i].id > lo + 1;
        } else {
          assert list[i] == rest[i] && list[j] == rest[j];
          assert rest[i].id > rest[j].id;
        }
      }
    }
  }

  lemma InsertKeepsTableValid(t: Table, rows: map<int, Row>, next: int, row: Row)
    requires TableValid(t, rows, next)
    requires row.id == next && !Clashes(t, rows, 0, row.data)
    requires forall k | k in row.data :: row.data[k] != Undef
    ensures TableValid(t, rows[next := row], next + 1)
  {
    var rows' := rows[next := row];
    forall a, b, k | a in rows' && b in rows' && k in UniqueColumns(t) && k in rows'[a].data
      ensures a != b && Indexed(rows'[a].data[k]) ==> Get(rows'[b].data, k) != rows'[a].data[k]
    {
      if a != b && Indexed(rows'[a].data[k]) && a != next && b == next {
        assert Get(rows[a].data, k) == rows[a].data[k];
      }
    }
  }

  lemma ReplaceKeepsTableValid(t: Table, rows: map<int, Row>, next: int, row: Row)
    requires TableValid(t, rows, next)
    requires row.id in rows && !Clashes(t, rows, row.id, row.data)
    requires forall k | k in row.data :: row.data[k] != Undef
    ensures TableValid(t, rows[row.id := row], next)
  {
    var rows' := rows[row.id := row];
    forall a, b, k | a in rows' && b in rows' && k in UniqueColumns(t) && k in rows'[a].data
      ensures a != b && Indexed(rows'[a].data[k]) ==> Get(rows'[b].data, k) != rows'[a].data[k]
    {
      if a != b && Indexed(rows'[a].data[k]) && a != row.id && b == row.id {
        assert Get(rows[a].data, k) == rows[a].data[k];
      }
    }
  }
}
