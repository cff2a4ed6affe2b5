/** The registry's data model (src/models.py): the donor value with its
    registration, full name and serialisation; the list mappings behind the
    JSON save and load; the blood sample whose results are recorded in
    place; and the attribute patching of profiles and visits. */
module Models {
  import opened Wrappers
  import opened AsciiText

  /** Width of the `cedula` column, `String(14)`. */
  const CedulaMaxLength := 14

  /** A donor row without its surrogate id, which belongs to the store. */
  datatype Donor = Donor(cedula: string, nombre: string, apellido: string)

  /** A serialised object: JSON keys to string values. */
  type Record = map<string, string>

  const CedulaKey := "cedula"
  const NombreKey := "nombre"
  const ApellidoKey := "apellido"
  const NombreCompletoKey := "nombre_completo"

  /** The keys of a serialised donor. */
  const SerializedKeys: set<string> := {CedulaKey, NombreKey, ApellidoKey, NombreCompletoKey}

  // ---------------------------------------------------------------------
  // Donante

  /** `Donante.registrarse`: the national id passes through unchanged and
      both name parts are put in normal form without changing their letters. */
  function Register(cedula: string, nombre: string, apellido: string): (d: Donor)
    ensures d.cedula == cedula
    ensures IsNormalized(d.nombre) && SameLetters(d.nombre, nombre)
    ensures IsNormalized(d.apellido) && SameLetters(d.apellido, apellido)
  {
    NormalizeShape(nombre);
    NormalizeShape(apellido);
    Donor(cedula, Normalize(nombre), Normalize(apellido))
  }

  /** Names are in the form registration gives them. */
  predicate IsRegistered(d: Donor)
  {
    IsNormalized(d.nombre) && IsNormalized(d.apellido)
  }

  /** Registration is determined by its contract: a donor with the same id,
      normalised names and the same letters is the registered one. */
  lemma RegisterCharacterized(cedula: string, nombre: string, apellido: string, d: Donor)
    requires d.cedula == cedula && IsRegistered(d)
    requires SameLetters(d.nombre, nombre) && SameLetters(d.apellido, apellido)
    ensures d == Register(cedula, nombre, apellido)
  {
    NormalizedUnique(nombre, d.nombre);
    NormalizedUnique(apellido, d.apellido);
  }

  /** Registering an already registered donor again changes nothing. */
  lemma RegisterIdempotent(d: Donor)
    requires IsRegistered(d)
    ensures Register(d.cedula, d.nombre, d.apellido) == d
  {
    NormalizeFixesNormalized(d.nombre);
    NormalizeFixesNormalized(d.apellido);
  }

  /** The property `nombre_completo`: given name, one space, family name. */
  function FullName(d: Donor): (r: string)
    ensures |r| == |d.nombre| + |d.apellido| + 1
    ensures r[..|d.nombre|] == d.nombre && r[|d.nombre|] == ' '
    ensures r[|d.nombre| + 1..] == d.apellido
  {
    d.nombre + " " + d.apellido
  }

  /** `Donante.serializar`: exactly the four keys, the stored values, and a
      full name that agrees with the two name parts. */
  function Serialize(d: Donor): (r: Record)
    ensures r.Keys == SerializedKeys
    ensures r[CedulaKey] == d.cedula && r[NombreKey] == d.nombre && r[ApellidoKey] == d.apellido
    ensures r[NombreCompletoKey] == r[NombreKey] + " " + r[ApellidoKey]
  {
    map[CedulaKey := d.cedula, NombreKey := d.nombre, ApellidoKey := d.apellido,
        NombreCompletoKey := FullName(d)]
  }

  /** Serialisation loses nothing: different donors serialise differently. */
  lemma SerializeInjective(d1: Donor, d2: Donor)
    requires Serialize(d1) == Serialize(d2)
    ensures d1 == d2
  {
    assert Serialize(d1)[CedulaKey] == Serialize(d2)[CedulaKey];
    assert Serialize(d1)[NombreKey] == Serialize(d2)[NombreKey];
    assert Serialize(d1)[ApellidoKey] == Serialize(d2)[ApellidoKey];
  }

  /** Registering "123", "ana", "ruiz" and serialising gives Ana Ruiz. */
  lemma RegisterSerializeExample()
    ensures Serialize(Register("123", "ana", "ruiz")) ==
      map[CedulaKey := "123", NombreKey := "Ana", ApellidoKey := "Ruiz", NombreCompletoKey := "Ana Ruiz"]
  {
    var d := Register("123", "ana", "ruiz");
    assert Normalize("ana") == "Ana";
    assert Normalize("ruiz") == "Ruiz";
    assert d == Donor("123", "Ana", "Ruiz");
    assert FullName(d) == "Ana Ruiz";
  }

  /** The list that `salvar` writes: one serialised donor per donor, in order. */
  function SerializeAll(donantes: seq<Donor>): (r: seq<Record>)
    ensures |r| == |donantes|
    ensures forall i | 0 <= i < |r| :: r[i] == Serialize(donantes[i])
  {
    if donantes == [] then [] else [Serialize(donantes[0])] + SerializeAll(donantes[1..])
  }

  /** The loop of `Donante.salvar` that builds the list handed to `json.dump`. */
  method SaveList(donantes: seq<Donor>) returns (serializados: seq<Record>)
    ensures serializados == SerializeAll(donantes)
  {
    serializados := [];
    for i := 0 to |donantes|
      invariant |serializados| == i
      invariant forall j | 0 <= j < i :: serializados[j] == Serialize(donantes[j])
    {
      serializados := serializados + [Serialize(donantes[i])];
    }
  }

  /** An entry of the JSON file has the three keys `cargar` reads. */
  predicate HasDonorKeys(entry: Record)
  {
    CedulaKey in entry && NombreKey in entry && ApellidoKey in entry
  }

  /** What `cargar` makes of one entry: a registered donor. */
  function LoadEntry(entry: Record): (d: Donor)
    requires HasDonorKeys(entry)
    ensures d.cedula == entry[CedulaKey] && IsRegistered(d)
    ensures SameLetters(d.nombre, entry[NombreKey]) && SameLetters(d.apellido, entry[ApellidoKey])
  {
    Register(entry[CedulaKey], entry[NombreKey], entry[ApellidoKey])
  }

  /** The donors `cargar` returns: the entries are registered in order until
      the first one that lacks a key, where the KeyError ends the loop. */
  function Loaded(entries: seq<Record>): (r: seq<Donor>)
    ensures |r| <= |entries|
    ensures forall i | 0 <= i < |r| :: HasDonorKeys(entries[i]) && r[i] == LoadEntry(entries[i])
    ensures |r| < |entries| ==> !HasDonorKeys(entries[|r|])
  {
    if entries == [] || !HasDonorKeys(entries[0]) then []
    else [LoadEntry(entries[0])] + Loaded(entries[1..])
  }

  /** The loop of `Donante.cargar` over the decoded file. `complete` is false
      when an entry lacked a key, the case where the source's `except`
      branch takes over. */
  method LoadList(entries: seq<Record>) returns (donantes: seq<Donor>, complete: bool)
    ensures donantes == Loaded(entries)
    ensures complete <==> forall i | 0 <= i < |entries| :: HasDonorKeys(entries[i])
  {
    donantes := [];
    var i := 0;
    while i < |entries| && HasDonorKeys(entries[i])
      invariant 0 <= i <= |entries|
      invariant |donantes| == i
      invariant forall j | 0 <= j < i :: HasDonorKeys(entries[j]) && donantes[j] == LoadEntry(entries[j])
    {
      donantes := donantes + [LoadEntry(entries[i])];
      i := i + 1;
    }
    complete := i == |entries|;
    LoadedLength(entries, i);
  }

  /** `Loaded` stops exactly at the first entry without the three keys. */
  lemma {:induction false} LoadedLength(entries: seq<Record>, n: nat)
    requires n <= |entries|
    requires forall j | 0 <= j < n :: HasDonorKeys(entries[j])
    requires n < |entries| ==> !HasDonorKeys(entries[n])
    ensures |Loaded(entries)| == n
  {
    if n > 0 {
      LoadedLength(entries[1..], n - 1);
    }
  }

  /** Saving registered donors and loading the file back gives the same donors. */
  lemma {:induction false} LoadAfterSave(donantes: seq<Donor>)
    requires forall i | 0 <= i < |donantes| :: IsRegistered(donantes[i])
    ensures Loaded(SerializeAll(donantes)) == donantes
  {
    var saved := SerializeAll(donantes);
    var loaded := Loaded(saved);
    LoadedLength(saved, |saved|);
    forall i | 0 <= i < |donantes| ensures loaded[i] == donantes[i] {
      RegisterIdempotent(donantes[i]);
    }
  }

  // ---------------------------------------------------------------------
  // Muestra

  /** A moment in time, as the database's timestamp columns hold it. */
  type Timestamp = int

  /** `Muestra`: a blood sample taken at one visit. Columns the constructor
      leaves unset are None until results are recorded. */
  class Sample {
    var visitaId: int
    var fechaHora: Option<Timestamp>
    var tieneEnfermedad: Option<bool>
    var bioanalista: Option<string>

    constructor (visitaId: int)
      ensures this.visitaId == visitaId
      ensures fechaHora == None && tieneEnfermedad == None && bioanalista == None
    {
      this.visitaId := visitaId;
      fechaHora, tieneEnfermedad, bioanalista := None, None, None;
    }

    /** `registrar_resultado`: the three result columns take the arguments
        together; the visit the sample belongs to stays the same. */
    method RecordResult(fechaHora: Timestamp, tieneEnfermedad: bool, bioanalista: string)
      returns (ok: bool)
      modifies this
      ensures ok
      ensures this.fechaHora == Some(fechaHora)
      ensures this.tieneEnfermedad == Some(tieneEnfermedad)
      ensures this.bioanalista == Some(bioanalista)
      ensures visitaId == old(visitaId)
    {
      this.fechaHora := Some(fechaHora);
      this.tieneEnfermedad := Some(tieneEnfermedad);
      this.bioanalista := Some(bioanalista);
      ok := true;
    }
  }

  // ---------------------------------------------------------------------
  // Perfil and Visita: patching attributes by name

  /** A column value as a JSON patch can carry it. */
  datatype Value = Null | Text(text: string) | Flag(flag: bool) | Number(number: int) | Moment(moment: Timestamp)

  /** The items of a patch dictionary, in iteration order. */
  type Patch = seq<(string, Value)>

  /** `v` is the value of the last item of `patch` whose key is `key`. */
  ghost predicate IsLastValue<V>(patch: seq<(string, V)>, key: string, v: V)
  {
    exists i | 0 <= i < |patch| :: patch[i] == (key, v) && forall j | i < j < |patch| :: patch[j].0 != key
  }

  /** A key has at most one last value. */
  lemma LastValueUnique<V>(patch: seq<(string, V)>, key: string, v: V, w: V)
    requires IsLastValue(patch, key, v) && IsLastValue(patch, key, w)
    ensures v == w
  {
    var i :| 0 <= i < |patch| && patch[i] == (key, v) && forall j | i < j < |patch| :: patch[j].0 != key;
    var k :| 0 <= k < |patch| && patch[k] == (key, w) && forall j | k < j < |patch| :: patch[j].0 != key;
    assert i == k;
  }

  /** The value a list of patch items gives `key`: its last occurrence, if any. */
  function PatchValue<V>(patch: seq<(string, V)>, key: string): (r: Option<V>)
    ensures r.None? <==> forall i | 0 <= i < |patch| :: patch[i].0 != key
    ensures r.Some? ==> IsLastValue(patch, key, r.value)
  {
    if patch == [] then None
    else
      var rest := PatchValue(patch[1..], key);
      if rest.Some? then rest
      else if patch[0].0 == key then Some(patch[0].1)
      else None
  }

  /** The error `self[key] = value` raises: a model object does not support
      item assignment (TypeError). */
  datatype PatchError = ItemAssignmentUnsupported(key: string)

  /** The loop of `Perfil.actualizar_perfil` and `Visita.actualizar` as
      written. `attributes` are the names `hasattr` finds on the object. A key
      that is not one of them is skipped; the first key that is one raises,
      so the object never changes. */
  method PatchAttributesAsWritten(attributes: set<string>, patch: Patch) returns (r: Result<bool, PatchError>)
    ensures r.Success? <==> forall i | 0 <= i < |patch| :: patch[i].0 !in attributes
    ensures r.Success? ==> r.value
    ensures r.Failure? ==> exists i | 0 <= i < |patch| ::
      r.error.key == patch[i].0 && patch[i].0 in attributes &&
      forall j | 0 <= j < i :: patch[j].0 !in attributes
  {
    for i := 0 to |patch|
      invariant forall j | 0 <= j < i :: patch[j].0 !in attributes
    {
      var key := patch[i].0;
      if key in attributes {
        return Failure(ItemAssignmentUnsupported(key));
      }
    }
    return Success(true);
  }

  /** The attributes after the intended patch: every key that names a column
      takes the patch's value for it, every other key is skipped. */
  function Patched(fields: map<string, Value>, columns: set<string>, patch: Patch): (r: map<string, Value>)
    ensures forall k :: k in r <==> k in fields || (k in columns && PatchValue(patch, k).Some?)
    ensures forall k | k in r ::
      r[k] == if k in columns && PatchValue(patch, k).Some? then PatchValue(patch, k).value else fields[k]
    decreases patch
  {
    if patch == [] then fields
    else
      var (key, value) := patch[0];
      Patched(if key in columns then fields[key := value] else fields, columns, patch[1..])
  }

  /** A patch that names no column changes nothing. */
  lemma PatchedUnknownKeysSkipped(fields: map<string, Value>, columns: set<string>, patch: Patch)
    requires forall i | 0 <= i < |patch| :: patch[i].0 !in columns
    ensures Patched(fields, columns, patch) == fields
  {
    var r := Patched(fields, columns, patch);
    forall k | k in columns ensures PatchValue(patch, k).None? { }
    assert r.Keys == fields.Keys;
  }

  /** Patching only ever touches columns: the column set of a valid object is kept. */
  lemma PatchedKeepsColumns(fields: map<string, Value>, columns: set<string>, patch: Patch)
    requires fields.Keys == columns
    ensures Patched(fields, columns, patch).Keys == columns
  {
    var r := Patched(fields, columns, patch);
    assert forall k :: k in r <==> k in columns;
  }

  /** The patch loop as intended: one column assignment per known key. */
  method PatchAttributes(fields: map<string, Value>, columns: set<string>, patch: Patch)
    returns (updated: map<string, Value>)
    ensures updated == Patched(fields, columns, patch)
  {
    updated := fields;
    for i := 0 to |patch|
      invariant Patched(updated, columns, patch[i..]) == Patched(fields, columns, patch)
    {
      assert patch[i..][1..] == patch[i + 1..];
      var (key, value) := patch[i];
      if key in columns {
        updated := updated[key := value];
      }
    }
    assert patch[|patch|..] == [];
  }

  /** The columns of `Perfil`. */
  const ProfileColumns: set<string> :=
    {"id", "hepatitis", "VIH", "telefono", "fecha_nacimiento", "email",
     "RH_positivo", "sangre_tipo", "donante_id"}

  /** What `hasattr` finds on a `Perfil`: its columns, the `donante`
      back-reference and the class's own methods. */
  const ProfileAttributes: set<string> := ProfileColumns + {"donante", "crear", "actualizar_perfil"}

  /** `Perfil`: the health and contact attributes of one donor, by column name. */
  class Profile {
    var fields: map<string, Value>

    ghost predicate Valid()
      reads this
    {
      fields.Keys == ProfileColumns
    }

    constructor (donanteId: int)
      ensures Valid()
      ensures fields["donante_id"] == Number(donanteId)
      ensures forall k | k in fields && k != "donante_id" :: fields[k] == Null
    {
      fields := map k | k in ProfileColumns :: if k == "donante_id" then Number(donanteId) else Null;
    }

    /** `actualizar_perfil` as intended: each patch key that names a column
        is assigned, every other key is skipped, and the call returns true. */
    method UpdateProfile(patch: Patch) returns (ok: bool)
      requires Valid()
      modifies this
      ensures Valid()
      ensures ok
      ensures fields == Patched(old(fields), ProfileColumns, patch)
    {
      PatchedKeepsColumns(fields, ProfileColumns, patch);
      fields := PatchAttributes(fields, ProfileColumns, patch);
      ok := true;
    }
  }

  /** The columns of `Visita`. */
  const VisitColumns: set<string> :=
    {"id", "fecha_hora", "encuestador", "genero", "orientacion_sexual",
     "ultimo_consumo_psicotropicas", "ultimo_periodo_menstrual", "ultimo_tatuaje", "donante_id"}

  /** What `hasattr` finds on a `Visita`: its columns and the class's own methods. */
  const VisitAttributes: set<string> := VisitColumns + {"crear", "actualizar", "calcular_resultado"}

  /** `Visita`: one donation encounter, by column name. */
  class Visit {
    var fields: map<string, Value>

    ghost predicate Valid()
      reads this
    {
      fields.Keys == VisitColumns
    }

    /** The visit is stamped with `now`, the creation time the source reads from the clock. */
    constructor (donanteId: int, encuestador: string, now: Timestamp)
      ensures Valid()
      ensures fields["fecha_hora"] == Moment(now)
      ensures fields["donante_id"] == Number(donanteId)
      ensures fields["encuestador"] == Text(encuestador)
      ensures forall k | k in fields && k !in {"fecha_hora", "donante_id", "encuestador"} :: fields[k] == Null
    {
      fields := map k | k in VisitColumns ::
        if k == "fecha_hora" then Moment(now)
        else if k == "donante_id" then Number(donanteId)
        else if k == "encuestador" then Text(encuestador)
        else Null;
    }

    /** `Visita.actualizar` as intended: each patch key that names a column
        is assigned, every other key is skipped, and the call returns true. */
    method Update(patch: Patch) returns (ok: bool)
      requires Valid()
      modifies this
      ensures Valid()
      ensures ok
      ensures fields == Patched(old(fields), VisitColumns, patch)
    {
      PatchedKeepsColumns(fields, VisitColumns, patch);
      fields := PatchAttributes(fields, VisitColumns, patch);
      ok := true;
    }
  }

  /** A patch naming an attribute makes the loop as written raise where the
      intended loop assigns: the telephone number of a profile. */
  lemma TelephonePatchDiffers(fields: map<string, Value>)
    ensures "telefono" in ProfileAttributes
    ensures Patched(fields, ProfileColumns, [("telefono", Text("5551234"))])["telefono"] == Text("5551234")
  {
    assert PatchValue([("telefono", Text("5551234"))], "telefono") == Some(Text("5551234"));
  }

  /** The same holds for a visit: `genero` is an attribute of `Visita`, so the
      loop as written raises on it where the intended loop assigns it. */
  lemma GenderPatchDiffers(fields: map<string, Value>)
    ensures "genero" in VisitAttributes
    ensures Patched(fields, VisitColumns, [("genero", Text("F"))])["genero"] == Text("F")
  {
    assert PatchValue([("genero", Text("F"))], "genero") == Some(Text("F"));
  }
}
