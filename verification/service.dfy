/** The donor resource of src/main.py: the collection handler (`GET` with an
    optional name filter, `POST` with its validation pipeline and a
    transactional insert) and the item handler (`GET`, `PATCH`, `DELETE` by
    id), over an in-memory donor table that stands for the database. */
module DonorService {
  import opened Wrappers
  import opened AsciiText
  import opened Models

  // ---------------------------------------------------------------------
  // Requests and responses

  /** A decoded JSON object body with string values. */
  type Body = map<string, string>

  /** What the database reports when a commit fails. */
  datatype StoreError =
    | UniqueViolation   // two rows with the same `cedula`
    | ValueTooLong      // a `cedula` wider than its column
    | ExternalFailure   // anything outside the model: a lost connection, a dependent row

  /** Response bodies. `StoreFailure` is `{"resultado": <error.args>}`, whose
      text is the database's own. */
  datatype Payload =
    | DonorObject(donor: Record)
    | DonorList(donors: seq<Record>)
    | Message(resultado: string)
    | StoreFailure(error: StoreError)
    | NoContent
    | InternalServerError

  datatype Response = Response(status: int, payload: Payload)

  const NoBodyMessage := "no envió insumos para crear el donante..."
  const MissingKeysMessage := "revise las propiedades de su solicitud"
  const InvalidValuesMessage := "revise los valores de su solicitud"
  const NotFoundMessage := "el donante no existe..."

  const NotFoundResponse := Response(404, Message(NotFoundMessage))

  // ---------------------------------------------------------------------
  // POST validation

  /** The three stages at which a creation request is turned away. */
  datatype Rejection = NoBody | MissingKeys | InvalidValues

  function RejectionResponse(rejection: Rejection): (r: Response)
    ensures r.status == 400
  {
    match rejection
    case NoBody => Response(400, Message(NoBodyMessage))
    case MissingKeys => Response(400, Message(MissingKeysMessage))
    case InvalidValues => Response(400, Message(InvalidValuesMessage))
  }

  /** The fields of an accepted creation request, before registration. */
  datatype Submission = Submission(cedula: string, nombre: string, apellido: string)

  /** Stage three: no empty value and a `cedula` that fits its column. */
  predicate ValuesAcceptable(body: Body)
    requires HasDonorKeys(body)
  {
    body[NombreKey] != "" && body[ApellidoKey] != "" && body[CedulaKey] != "" &&
    |body[CedulaKey]| <= CedulaMaxLength
  }

  /** The POST checks, in the source's order: a body, then the three keys,
      then their values. Each stage rejects only what the earlier ones let
      through, and a request passes exactly when it clears all three. */
  function Validate(body: Option<Body>): (r: Result<Submission, Rejection>)
    ensures r == Failure(NoBody) <==> body.None?
    ensures r == Failure(MissingKeys) <==> body.Some? && !HasDonorKeys(body.value)
    ensures r == Failure(InvalidValues) <==>
      body.Some? && HasDonorKeys(body.value) && !ValuesAcceptable(body.value)
    ensures r.Success? ==>
      body.Some? && HasDonorKeys(body.value) &&
      r.value == Submission(body.value[CedulaKey], body.value[NombreKey], body.value[ApellidoKey]) &&
      r.value.cedula != "" && r.value.nombre != "" && r.value.apellido != "" &&
      |r.value.cedula| <= CedulaMaxLength
  {
    if body.None? then Failure(NoBody)
    else if !HasDonorKeys(body.value) then Failure(MissingKeys)
    else if !ValuesAcceptable(body.value) then Failure(InvalidValues)
    else Success(Submission(body.value[CedulaKey], body.value[NombreKey], body.value[ApellidoKey]))
  }

  /** The length check is "more than 14": a 14-character `cedula` is
      accepted and a 15-character one is not. */
  lemma CedulaLengthBoundary(body: Body)
    requires HasDonorKeys(body) && body[NombreKey] != "" && body[ApellidoKey] != ""
    ensures |body[CedulaKey]| == 14 ==> Validate(Some(body)).Success?
    ensures |body[CedulaKey]| == 15 ==> Validate(Some(body)) == Failure(InvalidValues)
  {
  }

  // ---------------------------------------------------------------------
  // GET collection: filter by name, then serialise

  /** The filter of the GET collection path: the lower-cased full name
      contains the lower-cased query. */
  predicate Matches(d: Donor, name: string)
    ensures Matches(d, name) <==> exists i :: OccursAt(Lower(FullName(d)), Lower(name), i)
  {
    ContainsIff(Lower(FullName(d)), Lower(name));
    Contains(Lower(FullName(d)), Lower(name))
  }

  /** `filter(...)` over the query result: the donors that match, in order. */
  function Matching(donors: seq<Donor>, name: string): (r: seq<Donor>)
    ensures forall d :: d in r <==> d in donors && Matches(d, name)
    ensures |r| <= |donors|
  {
    if donors == [] then []
    else (if Matches(donors[0], name) then [donors[0]] else []) + Matching(donors[1..], name)
  }

  /** The filter keeps relative order: filtering a concatenation is
      concatenating the filtered parts. */
  lemma {:induction false} MatchingAppend(a: seq<Donor>, b: seq<Donor>, name: string)
    ensures Matching(a + b, name) == Matching(a, name) + Matching(b, name)
  {
    if a == [] {
      assert a + b == b;
    } else {
      assert (a + b)[1..] == a[1..] + b;
      MatchingAppend(a[1..], b, name);
    }
  }

  /** An empty query matches every donor. */
  lemma {:induction false} MatchingEmptyName(donors: seq<Donor>)
    ensures Matching(donors, "") == donors
  {
    if donors != [] {
      ContainsEmpty(Lower(FullName(donors[0])));
      MatchingEmptyName(donors[1..]);
    }
  }

  /** The GET collection result: every donor, or with a `name` query only
      the matching ones, serialised. */
  function Search(donors: seq<Donor>, name: Option<string>): (r: seq<Record>)
    ensures |r| <= |donors|
    ensures name.None? ==> |r| == |donors| && forall i | 0 <= i < |r| :: r[i] == Serialize(donors[i])
    ensures name.Some? ==>
      forall i | 0 <= i < |r| :: exists d :: d in donors && Matches(d, name.value) && r[i] == Serialize(d)
  {
    SerializeAll(if name.Some? then Matching(donors, name.value) else donors)
  }

  /** A record is in the filtered result exactly when it serialises a stored
      donor whose full name contains the query, ignoring case. */
  lemma SearchMembership(donors: seq<Donor>, name: string, rec: Record)
    ensures rec in Search(donors, Some(name)) <==>
      exists d :: d in donors && Matches(d, name) && rec == Serialize(d)
  {
    var kept := Matching(donors, name);
    var result := SerializeAll(kept);
    assert result == Search(donors, Some(name));
    if rec in result {
      var i :| 0 <= i < |result| && result[i] == rec;
      var d := kept[i];
      assert d in kept;
      assert d in donors && Matches(d, name) && rec == Serialize(d);
    }
    if d :| d in donors && Matches(d, name) && rec == Serialize(d) {
      assert d in kept;
      var i :| 0 <= i < |kept| && kept[i] == d;
      assert result[i] == rec;
    }
  }

  /** An empty `name` query returns the same list as no query. */
  lemma SearchEmptyName(donors: seq<Donor>)
    ensures Search(donors, Some("")) == Search(donors, None)
  {
    MatchingEmptyName(donors);
  }

  /** Matching is case-insensitive in the query. */
  lemma SearchIgnoresQueryCase(donors: seq<Donor>, name: string, other: string)
    requires Lower(name) == Lower(other)
    ensures Search(donors, Some(name)) == Search(donors, Some(other))
  {
    MatchingSameLower(donors, name, other);
  }

  lemma {:induction false} MatchingSameLower(donors: seq<Donor>, name: string, other: string)
    requires Lower(name) == Lower(other)
    ensures Matching(donors, name) == Matching(donors, other)
  {
    if donors != [] {
      MatchingSameLower(donors[1..], name, other);
    }
  }

  /** "mar" finds Maria Lopez and Carlos Marin but not Juan Perez. */
  lemma SearchExample()
    ensures Matching([Donor("1", "Maria", "Lopez"), Donor("2", "Carlos", "Marin"), Donor("3", "Juan", "Perez")], "mar")
         == [Donor("1", "Maria", "Lopez"), Donor("2", "Carlos", "Marin")]
  {
    MariaMatches();
    CarlosMatches();
    JuanDoesNotMatch();
    MatchingOfThree(Donor("1", "Maria", "Lopez"), Donor("2", "Carlos", "Marin"), Donor("3", "Juan", "Perez"), "mar");
  }

  lemma MariaMatches()
    ensures Matches(Donor("1", "Maria", "Lopez"), "mar")
  {
    assert FullName(Donor("1", "Maria", "Lopez")) == "Maria Lopez";
    ExampleMatch(Donor("1", "Maria", "Lopez"), "maria lopez", 0);
  }

  lemma CarlosMatches()
    ensures Matches(Donor("2", "Carlos", "Marin"), "mar")
  {
    assert FullName(Donor("2", "Carlos", "Marin")) == "Carlos Marin";
    ExampleMatch(Donor("2", "Carlos", "Marin"), "carlos marin", 7);
  }

  lemma JuanDoesNotMatch()
    ensures !Matches(Donor("3", "Juan", "Perez"), "mar")
  {
    assert FullName(Donor("3", "Juan", "Perez")) == "Juan Perez";
    ExampleNoMatch(Donor("3", "Juan", "Perez"), "juan perez");
  }

  lemma MatchingOfThree(a: Donor, b: Donor, c: Donor, name: string)
    requires Matches(a, name) && Matches(b, name) && !Matches(c, name)
    ensures Matching([a, b, c], name) == [a, b]
  {
    assert [c][1..] == [];
    assert Matching([c], name) == [];
    assert [b, c][1..] == [c];
    assert Matching([b, c], name) == [b];
    assert [a, b, c][1..] == [b, c];
  }

  lemma ExampleMatch(d: Donor, lowered: string, at: nat)
    requires Lower(FullName(d)) == lowered && OccursAt(lowered, "mar", at)
    ensures Matches(d, "mar")
  {
    assert Lower("mar") == "mar";
    ContainsIff(lowered, "mar");
  }

  lemma ExampleNoMatch(d: Donor, lowered: string)
    requires Lower(FullName(d)) == lowered
    requires forall i | 0 <= i < |lowered| :: lowered[i] != 'm'
    ensures !Matches(d, "mar")
  {
    assert Lower("mar") == "mar";
    ContainsIff(lowered, "mar");
    forall i | 0 <= i ensures !OccursAt(lowered, "mar", i) {
      if i + 3 <= |lowered| {
        assert lowered[i..i + 3][0] == lowered[i];
      }
    }
  }

  // ---------------------------------------------------------------------
  // The donor table and its commit rule

  /** No two rows share a `cedula` (the column is `unique=True`). */
  predicate CedulasUnique(table: map<int, Donor>)
  {
    forall a, b | a in table && b in table && a != b :: table[a].cedula != table[b].cedula
  }

  /** Every `cedula` fits its `String(14)` column. */
  predicate CedulasFit(table: map<int, Donor>)
  {
    forall id | id in table :: |table[id].cedula| <= CedulaMaxLength
  }

  predicate CedulaTaken(table: map<int, Donor>, cedula: string)
  {
    exists id | id in table :: table[id].cedula == cedula
  }

  /** The outcome of committing a transaction that would leave `staged` as
      the table: it fails when a column constraint is broken or when
      `fault`, a failure outside the model, occurs. */
  function CommitError(staged: map<int, Donor>, fault: bool): (e: Option<StoreError>)
    ensures e.None? <==> !fault && CedulasUnique(staged) && CedulasFit(staged)
    ensures e == Some(ExternalFailure) <==> fault
  {
    if fault then Some(ExternalFailure)
    else if !CedulasFit(staged) then Some(ValueTooLong)
    else if !CedulasUnique(staged) then Some(UniqueViolation)
    else None
  }

  /** Inserting a row whose `cedula` fits into a consistent table commits
      unless the `cedula` is already taken, and then fails as a uniqueness
      violation. */
  lemma InsertCommitError(table: map<int, Donor>, id: int, d: Donor, fault: bool)
    requires CedulasUnique(table) && CedulasFit(table)
    requires id !in table && |d.cedula| <= CedulaMaxLength
    ensures CommitError(table[id := d], fault) ==
      if fault then Some(ExternalFailure)
      else if CedulaTaken(table, d.cedula) then Some(UniqueViolation)
      else None
  {
    var staged := table[id := d];
    assert CedulasFit(staged);
    if CedulaTaken(table, d.cedula) {
      var other :| other in table && table[other].cedula == d.cedula;
      assert staged[other].cedula == staged[id].cedula;
    }
  }

  /** Removing a row from a consistent table never breaks a constraint. */
  lemma RemoveCommitError(table: map<int, Donor>, id: int, fault: bool)
    requires CedulasUnique(table) && CedulasFit(table)
    ensures CommitError(table - {id}, fault) == if fault then Some(ExternalFailure) else None
  {
  }

  /** The rows `ids` name, in that order. */
  function RowsOf(table: map<int, Donor>, ids: seq<int>): (r: seq<Donor>)
    requires forall i | 0 <= i < |ids| :: ids[i] in table
    ensures |r| == |ids|
    ensures forall i | 0 <= i < |r| :: r[i] == table[ids[i]]
  {
    if ids == [] then [] else [table[ids[0]]] + RowsOf(table, ids[1..])
  }

  /** Every row the ids name is a stored donor. */
  lemma RowsOfStored(table: map<int, Donor>, ids: seq<int>)
    requires forall i | 0 <= i < |ids| :: ids[i] in table
    ensures forall d | d in RowsOf(table, ids) :: d in table.Values
  {
    var r := RowsOf(table, ids);
    forall i | 0 <= i < |r| ensures r[i] in table.Values {
      assert ids[i] in table;
    }
  }

  /** When the ids name every row of the table, every stored donor is listed. */
  lemma RowsOfComplete(table: map<int, Donor>, ids: seq<int>)
    requires forall i | 0 <= i < |ids| :: ids[i] in table
    requires forall id | id in table :: id in ids
    ensures forall d | d in table.Values :: d in RowsOf(table, ids)
  {
    var r := RowsOf(table, ids);
    forall id | id in table ensures table[id] in r {
      var i :| 0 <= i < |ids| && ids[i] == id;
      assert r[i] == table[id];
    }
  }

  /** When the ids name every row of the table, the listed rows are exactly
      the stored donors. */
  lemma RowsOfValues(table: map<int, Donor>, ids: seq<int>)
    requires forall i | 0 <= i < |ids| :: ids[i] in table
    requires forall id | id in table :: id in ids
    ensures forall d :: d in RowsOf(table, ids) <==> d in table.Values
  {
    RowsOfStored(table, ids);
    RowsOfComplete(table, ids);
  }

  predicate Ascending(ids: seq<int>)
  {
    forall i, j | 0 <= i < j < |ids| :: ids[i] < ids[j]
  }

  /** `ids` without `x`, order kept. */
  function Without(ids: seq<int>, x: int): (r: seq<int>)
    ensures forall y :: y in r <==> y in ids && y != x
  {
    if ids == [] then []
    else if ids[0] == x then Without(ids[1..], x)
    else [ids[0]] + Without(ids[1..], x)
  }

  /** Removing an id keeps the remaining ids ascending. */
  lemma {:induction false} WithoutAscending(ids: seq<int>, x: int)
    requires Ascending(ids)
    ensures Ascending(Without(ids, x))
  {
    if ids != [] {
      WithoutAscending(ids[1..], x);
      var rest := Without(ids[1..], x);
      forall j | 0 <= j < |rest| ensures ids[0] < rest[j] {
        assert rest[j] in ids[1..];
      }
    }
  }

  /** The donor table: rows by surrogate id, the ids in the order a full
      query returns them (ascending, which is insertion order), and the id
      the next committed insert receives. */
  class DonorStore {
    var donors: map<int, Donor>
    var order: seq<int>
    var nextId: int

    ghost predicate Valid()
      reads this
    {
      CedulasUnique(donors) && CedulasFit(donors) && 1 <= nextId &&
      (forall id | id in donors :: 1 <= id < nextId) &&
      (forall i | 0 <= i < |order| :: order[i] in donors) &&
      (forall id | id in donors :: id in order) &&
      Ascending(order)
    }

    /** `Donante.query.all()`: every row, in retrieval order. */
    function Rows(): (r: seq<Donor>)
      reads this
      requires Valid()
      ensures |r| == |order|
      ensures forall d :: d in r <==> d in donors.Values
    {
      RowsOfValues(donors, order);
      RowsOf(donors, order)
    }

    constructor ()
      ensures Valid()
      ensures donors == map[] && order == [] && nextId == 1
    {
      donors, order, nextId := map[], [], 1;
    }

    /** `GET /donantes[?name=...]`: 200 with the serialised donors, filtered
        by the query when there is one; nothing changes. */
    method List(name: Option<string>) returns (resp: Response)
      requires Valid()
      ensures resp.status == 200
      ensures resp.payload == DonorList(Search(Rows(), name))
    {
      var rows := RowsOf(donors, order);
      var kept := if name.Some? then Matching(rows, name.value) else rows;
      resp := Response(200, DonorList(SerializeAll(kept)));
    }

    /** `POST /donantes`: a rejected request answers 400 and changes
        nothing; an accepted one registers the donor and either commits it
        under the next id (201 with its serialisation) or rolls back (500,
        nothing changed). A taken `cedula` always rolls back. */
    method Create(body: Option<Body>, fault: bool) returns (resp: Response)
      requires Valid()
      modifies this
      ensures Valid()
      ensures Validate(body).Failure? ==>
        resp == RejectionResponse(Validate(body).error) && unchanged(this)
      ensures Validate(body).Success? ==>
        var s := Validate(body).value;
        var d := Register(s.cedula, s.nombre, s.apellido);
        var err := CommitError(old(donors)[old(nextId) := d], fault);
        (err.Some? ==> resp == Response(500, StoreFailure(err.value)) && unchanged(this)) &&
        (err.None? ==>
          resp == Response(201, DonorObject(Serialize(d))) &&
          donors == old(donors)[old(nextId) := d] && order == old(order) + [old(nextId)] &&
          nextId == old(nextId) + 1)
      ensures resp.status == 201 ==>
        old(nextId) !in old(donors) && |donors| == |old(donors)| + 1 &&
        forall id | id in old(donors) :: id in donors && donors[id] == old(donors)[id]
      ensures Validate(body).Success? && CedulaTaken(old(donors), Validate(body).value.cedula) ==>
        resp == Response(500, StoreFailure(if fault then ExternalFailure else UniqueViolation)) &&
        unchanged(this)
    {
      var checked := Validate(body);
      if checked.Failure? {
        resp := RejectionResponse(checked.error);
        return;
      }
      var s := checked.value;
      var d := Register(s.cedula, s.nombre, s.apellido);
      var id := nextId;
      // session.add: the new row is staged in the open transaction
      var staged := donors[id := d];
      InsertCommitError(donors, id, d, fault);
      var err := CommitError(staged, fault);
      if err.None? {
        donors, order, nextId := staged, order + [id], nextId + 1;
        resp := Response(201, DonorObject(Serialize(d)));
      } else {
        // rollback: the staged row is discarded
        resp := Response(500, StoreFailure(err.value));
      }
    }

    /** `GET /donantes/<id>`: 404 for an unknown id, otherwise 200 with the
        donor's serialisation; nothing changes. */
    method Read(id: int) returns (resp: Response)
      requires Valid()
      ensures id !in donors ==> resp == NotFoundResponse
      ensures id in donors ==> resp == Response(200, DonorObject(Serialize(donors[id])))
    {
      if id in donors {
        resp := Response(200, DonorObject(Serialize(donors[id])));
      } else {
        resp := NotFoundResponse;
      }
    }

    /** `PATCH /donantes/<id>` as written: 404 for an unknown id; for a
        known one the handler calls `actualizar_donante`, which `Donante`
        does not define, and the AttributeError escapes the handler before
        any commit, so the framework answers 500 and nothing changes. */
    method PatchDonorAsWritten(id: int, patch: seq<(string, string)>) returns (resp: Response)
      requires Valid()
      ensures id !in donors ==> resp == NotFoundResponse
      ensures id in donors ==> resp == Response(500, InternalServerError)
    {
      if id in donors {
        resp := Response(500, InternalServerError);
      } else {
        resp := NotFoundResponse;
      }
    }

    /** `PATCH /donantes/<id>` as intended: 404 for an unknown id; otherwise
        the patch's `cedula`, `nombre` and `apellido` replace the donor's,
        other keys are skipped, and the change either commits (200 with the
        updated serialisation) or rolls back (500, nothing changed). */
    method PatchDonor(id: int, patch: seq<(string, string)>, fault: bool) returns (resp: Response)
      requires Valid()
      modifies this
      ensures Valid()
      ensures id !in old(donors) ==> resp == NotFoundResponse && unchanged(this)
      ensures id in old(donors) ==>
        var d := PatchedDonor(old(donors)[id], patch);
        var err := CommitError(old(donors)[id := d], fault);
        (err.Some? ==> resp == Response(500, StoreFailure(err.value)) && unchanged(this)) &&
        (err.None? ==>
          resp == Response(200, DonorObject(Serialize(d))) &&
          donors == old(donors)[id := d] && order == old(order) && nextId == old(nextId))
    {
      if id !in donors {
        resp := NotFoundResponse;
        return;
      }
      var d := PatchedDonor(donors[id], patch);
      var staged := donors[id := d];
      var err := CommitError(staged, fault);
      if err.None? {
        donors := staged;
        resp := Response(200, DonorObject(Serialize(d)));
      } else {
        resp := Response(500, StoreFailure(err.value));
      }
    }

    /** `DELETE /donantes/<id>`: 404 for an unknown id; otherwise the row is
        removed and the commit either succeeds (204, every other donor kept
        in order) or fails (500, nothing changed). */
    method Delete(id: int, fault: bool) returns (resp: Response)
      requires Valid()
      modifies this
      ensures Valid()
      ensures id !in old(donors) ==> resp == NotFoundResponse && unchanged(this)
      ensures id in old(donors) && fault ==>
        resp == Response(500, StoreFailure(ExternalFailure)) && unchanged(this)
      ensures id in old(donors) && !fault ==>
        resp == Response(204, NoContent) && donors == old(donors) - {id} &&
        order == Without(old(order), id) && nextId == old(nextId)
    {
      if id !in donors {
        resp := NotFoundResponse;
        return;
      }
      // session.delete: the removal is staged in the open transaction
      var staged := donors - {id};
      RemoveCommitError(donors, id, fault);
      var err := CommitError(staged, fault);
      if err.None? {
        WithoutAscending(order, id);
        var kept := Without(order, id);
        assert forall i | 0 <= i < |kept| :: kept[i] in kept;
        donors, order := staged, kept;
        resp := Response(204, NoContent);
      } else {
        resp := Response(500, StoreFailure(err.value));
      }
    }
  }

  /** The donor after the intended patch: a donor field that some patch item
      names takes the value of the last such item, and a field that no item
      names keeps its value. */
  function PatchedDonor(d: Donor, patch: seq<(string, string)>): (r: Donor)
    ensures (forall i | 0 <= i < |patch| :: patch[i].0 != CedulaKey) ==> r.cedula == d.cedula
    ensures (exists i | 0 <= i < |patch| :: patch[i].0 == CedulaKey) ==> IsLastValue(patch, CedulaKey, r.cedula)
    ensures (forall i | 0 <= i < |patch| :: patch[i].0 != NombreKey) ==> r.nombre == d.nombre
    ensures (exists i | 0 <= i < |patch| :: patch[i].0 == NombreKey) ==> IsLastValue(patch, NombreKey, r.nombre)
    ensures (forall i | 0 <= i < |patch| :: patch[i].0 != ApellidoKey) ==> r.apellido == d.apellido
    ensures (exists i | 0 <= i < |patch| :: patch[i].0 == ApellidoKey) ==> IsLastValue(patch, ApellidoKey, r.apellido)
  {
    Donor(PatchValue(patch, CedulaKey).GetOr(d.cedula),
          PatchValue(patch, NombreKey).GetOr(d.nombre),
          PatchValue(patch, ApellidoKey).GetOr(d.apellido))
  }

  /** A patch that names none of the donor's fields leaves the donor as it was. */
  lemma PatchedDonorUnknownKeys(d: Donor, patch: seq<(string, string)>)
    requires forall i | 0 <= i < |patch| :: patch[i].0 !in {CedulaKey, NombreKey, ApellidoKey}
    ensures PatchedDonor(d, patch) == d
  {
    assert PatchValue(patch, CedulaKey).None?;
    assert PatchValue(patch, NombreKey).None?;
    assert PatchValue(patch, ApellidoKey).None?;
  }

  /** A successful delete makes a following read of the same id answer 404. */
  method DeleteThenRead(store: DonorStore, id: int, fault: bool) returns (deleted: Response, read: Response)
    requires store.Valid()
    modifies store
    ensures deleted.status == 204 ==> read == NotFoundResponse
    ensures deleted.status == 404 ==> read == NotFoundResponse
  {
    deleted := store.Delete(id, fault);
    read := store.Read(id);
  }
}
