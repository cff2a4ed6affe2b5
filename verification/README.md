# Blood-bank donor registry, modelled in Dafny

This project models the core of a small Flask donor registry for a blood
bank. The registry records donors (`Donante`), their health profiles
(`Perfil`), donation visits (`Visita`) and the blood samples taken at a visit
(`Muestra`). It serves a `/donantes` resource with list/search, create,
read, partial update and delete.

The model has four modules:

- `AsciiText` (`ascii_text.dfy`): the string operations the code relies on.
  These are `str.lower`, `str.capitalize`, the normalisation
  `x.lower().capitalize()` and the substring test `needle in haystack`.
  Case mapping covers the ASCII letters only.
- `Models` (`models.dfy`, for `src/models.py`):
  - the `Donor` value, with registration (`registrarse`), the full name
    (`nombre_completo`) and serialisation (`serializar`);
  - the list mappings of the JSON save (`salvar`) and load (`cargar`), and
    the save-then-load round trip;
  - `Sample`, a class whose `RecordResult` updates three fields in place;
  - `Profile` and `Visit`, whose patch loops assign attributes by name. Each
    class keeps its columns as a name-to-value map.
- `DonorService` (`service.dfy`, for `src/main.py`):
  - the POST validation pipeline;
  - the GET filter and serialisation;
  - `DonorStore`, a class that stands for the database table. It holds a map
    from surrogate id to donor, the ids in retrieval order, and the id the
    next committed insert receives. Its methods are the request handlers. Each one
    states the response and the new table, including commit-or-rollback.
- `Wrappers` (`wrappers.dfy`): `Option` and `Result`.

A commit fails when the table it would leave breaks a column constraint.
The constraints are a unique `cedula` and a `cedula` of at most 14
characters. A commit also fails when the caller-supplied `fault` flag is
set. That flag stands for every failure the model does not describe, such
as a lost connection or a dependent row's foreign key. A failed commit
rolls back: the table is exactly as before and the answer is 500.

In two places the code does not do what its names and comments describe.
The model follows the code:

- PATCH on an existing donor does not update anything. It calls
  `actualizar_donante`, which `Donante` does not define, so the request ends
  in an unhandled error (500).
- The profile and visit patch loops raise as soon as a key names an
  attribute, because they use item assignment.

Both are listed under Findings. Each has an as-written member and a member
for the intended behaviour.

## Model

| member | source | states |
|---|---|---|
| AsciiText.Lower | src/models.py:69 | `lower()` leaves no upper-case letter, and each character stays the same letter as before |
| AsciiText.Capitalize | src/models.py:69-70 | `capitalize()` keeps the length; the first character is not lower-case and the rest are not upper-case; every position keeps its letter |
| AsciiText.NormalizeShape | src/models.py:69-70 | `x.lower().capitalize()` keeps the length, is in normal form and keeps every letter up to case ("MARIA" and "maria" both give "Maria") |
| AsciiText.NormalizedUnique | src/models.py:69-70 | the normalised name is the only normal-form string with the input's letters |
| AsciiText.NormalizeFixesNormalized | src/models.py:69-70 | a name already in normal form is left unchanged |
| AsciiText.NormalizeIdempotent | src/models.py:69-70 | normalising twice equals normalising once |
| AsciiText.ContainsIff | src/main.py:48 | the substring test holds exactly when the needle occurs at some position of the haystack |
| AsciiText.ContainsEmpty | src/main.py:48 | the empty string occurs in every string |
| Models.Register | src/models.py:60-72 | `registrarse` passes `cedula` through unchanged; `nombre` and `apellido` are put in normal form with the same letters |
| Models.RegisterCharacterized | src/models.py:67-71 | any donor with that `cedula` and normal-form names with those letters is the registered donor |
| Models.RegisterIdempotent | src/models.py:67-71 | registering an already registered donor again yields the same donor |
| Models.RegisterSerializeExample | src/models.py:67-86 | registering "123", "ana", "ruiz" serialises to cedula "123", nombre "Ana", apellido "Ruiz", nombre_completo "Ana Ruiz" |
| Models.FullName | src/models.py:74-77 | the full name is the given name, one space, the family name; its length is the sum of the two plus one |
| Models.Serialize | src/models.py:79-86 | exactly the keys cedula, nombre, apellido, nombre_completo; the stored values; `nombre_completo` equals `nombre + " " + apellido` |
| Models.SerializeInjective | src/models.py:79-86 | different donors serialise to different records |
| Models.SerializeAll | src/models.py:55-57 | the saved list has one record per donor, record i serialising donor i |
| Models.SaveList | src/models.py:54-58 | the `for`/`append` loop of `salvar` builds exactly that list |
| Models.Loaded | src/models.py:32-43 | `cargar` registers entries in order and stops at the first entry missing a key |
| Models.LoadList | src/models.py:32-46 | the loop of `cargar` returns exactly those donors and reports whether every entry had the three keys |
| Models.LoadedLength | src/models.py:36-43 | the loaded prefix ends exactly at the first entry without the three keys |
| Models.LoadEntry | src/models.py:37-41 | an entry with the three keys loads as a registered donor with that cedula and the entry's name letters |
| Models.LoadAfterSave | src/models.py:26-58 | loading what `salvar` wrote for registered donors returns the same donors |
| Models.Sample.constructor | src/models.py:165-166 | a new sample belongs to the given visit and has no result yet |
| Models.Sample.RecordResult | src/models.py:173-178 | `registrar_resultado` sets `fecha_hora`, `tiene_enfermedad` and `bioanalista` to the arguments, keeps `visita_id`, returns true |
| Models.PatchValue | src/models.py:111 | the value a patch gives a key is absent exactly when no item has that key, and otherwise is the value of the last item with that key |
| Models.LastValueUnique | src/models.py:111 | a key has at most one last value in a patch, so the value a patch gives it is determined |
| Models.PatchAttributesAsWritten | src/models.py:109-114 | as written, the loop succeeds (returning true) exactly when no key names an attribute; otherwise it raises at the first key that does |
| Models.Patched | src/models.py:111-113 | intended patch: each key naming a column takes the patch's value; every other column keeps its value |
| Models.PatchedUnknownKeysSkipped | src/models.py:111-114 | a patch whose keys name no column changes nothing |
| Models.PatchedKeepsColumns | src/models.py:111-113 | patching never adds or removes a column |
| Models.PatchAttributes | src/models.py:144-147 | the intended patch loop computes exactly the patched attributes |
| Models.Profile.constructor | src/models.py:101-102 | a new profile has its donor id set and every other column unset |
| Models.Profile.UpdateProfile | src/models.py:109-114 | `actualizar_perfil` as intended: known columns are assigned, unknown keys are skipped, returns true |
| Models.Visit.constructor | src/models.py:129-132 | a new visit has the creation time, donor id and interviewer set, and every other column unset |
| Models.Visit.Update | src/models.py:139-147 | `actualizar` as intended: known columns are assigned, unknown keys are skipped, returns true |
| Models.TelephonePatchDiffers | src/models.py:112-113 | `telefono` is an attribute, so the loop as written raises on it, while the intended patch assigns it |
| Models.GenderPatchDiffers | src/models.py:145-146 | `genero` is an attribute of a visit, so the loop as written raises on it, while the intended patch assigns it |
| DonorService.RejectionResponse | src/main.py:59-81 | every validation rejection answers 400 |
| DonorService.Validate | src/main.py:58-81 | no body gives NoBody; otherwise a missing key gives MissingKeys; otherwise an empty value or a cedula over 14 characters gives InvalidValues; otherwise the three values are accepted |
| DonorService.CedulaLengthBoundary | src/main.py:73-81 | a 14-character cedula passes the value check and a 15-character one is rejected |
| DonorService.Matches | src/main.py:48 | a donor matches exactly when the lower-cased query occurs at some position of the lower-cased full name |
| DonorService.Matching | src/main.py:47-48 | a donor is kept exactly when it is in the input and its lower-cased full name contains the lower-cased query |
| DonorService.MatchingAppend | src/main.py:48 | filtering keeps relative order: filtering a concatenation concatenates the filtered parts |
| DonorService.MatchingEmptyName | src/main.py:47-48 | an empty query keeps every donor |
| DonorService.Search | src/main.py:46-52 | without a query, every donor serialised in order; with one, at most as many records, each the serialisation of a stored matching donor (see also SearchMembership, SearchEmptyName and SearchIgnoresQueryCase) |
| DonorService.SearchMembership | src/main.py:47-52 | a record is in the filtered GET result exactly when it serialises a stored donor that matches the query |
| DonorService.SearchEmptyName | src/main.py:46-52 | `?name=` with an empty value returns the same list as no query |
| DonorService.SearchIgnoresQueryCase | src/main.py:48 | queries that agree up to case give the same result |
| DonorService.SearchExample | src/main.py:48 | "mar" keeps Maria Lopez and Carlos Marin, in that order, and drops Juan Perez |
| DonorService.CommitError | src/main.py:89-100 | a commit fails exactly on a fault, a duplicate cedula or a cedula wider than its column (src/models.py:10) |
| DonorService.InsertCommitError | src/main.py:89-95 | inserting a fitting row into a consistent table fails without a fault exactly when its cedula is already taken |
| DonorService.RemoveCommitError | src/main.py:135-141 | removing a row never breaks a constraint; only a fault makes that commit fail |
| DonorService.RowsOf | src/main.py:44 | the listed rows are the table's rows for the ids, in the ids' order |
| DonorService.Without | src/main.py:135 | removing an id keeps exactly the other ids |
| DonorService.WithoutAscending | src/main.py:135-139 | removing an id keeps retrieval order ascending |
| DonorService.RowsOfValues | src/main.py:44 | when the ids name every row, the listed rows are exactly the stored donors |
| DonorService.DonorStore.Rows | src/main.py:44 | `query.all()` lists one row per id in retrieval order, and a donor is listed exactly when it is stored |
| DonorService.DonorStore.List | src/main.py:41-55 | GET collection answers 200 with every stored donor serialised in retrieval order, or the matching ones when `name` is given |
| DonorService.DonorStore.Create | src/main.py:56-100 | a rejection answers 400 with the table unchanged; a commit adds exactly the registered donor under the next id and answers 201 with its serialisation; a failed commit, including any taken cedula, rolls back and answers 500 |
| DonorService.DonorStore.Read | src/main.py:111-116 | an unknown id answers 404; a known one answers 200 with its serialisation |
| DonorService.DonorStore.PatchDonorAsWritten | src/main.py:117-121 | as written: an unknown id answers 404; a known one ends in an unhandled error (500) with nothing changed |
| DonorService.DonorStore.PatchDonor | src/main.py:117-132 | intended PATCH: 404 for an unknown id; otherwise the donor fields in the patch are applied and committed (200 with the updated serialisation), or rolled back (500) |
| DonorService.DonorStore.Delete | src/main.py:133-150 | 404 for an unknown id; a committed delete answers 204, removes exactly that id and keeps every other donor in order; a failed one answers 500 with nothing changed |
| DonorService.PatchedDonor | src/main.py:119-121 | a donor field that some patch item names takes the value of the last such item; a field that no item names keeps its value |
| DonorService.PatchedDonorUnknownKeys | src/main.py:119-121 | a patch naming none of the donor fields leaves the donor unchanged |
| DonorService.DeleteThenRead | src/main.py:111-150 | after a delete that answered 204 (or 404), reading the same id answers 404 |

## Findings

| source | as written | input that shows it | evidently intended | confidence | as-written member | corrected member |
|---|---|---|---|---|---|---|
| src/main.py:121 | PATCH calls `donante.actualizar_donante(diccionario)`, a method `Donante` does not define, outside the `try` | `PATCH /donantes/1` with body `{"nombre": "Ana"}` when donor 1 exists | apply the patch's donor fields, commit and answer 200, or roll back and answer 500 | high, not executed | DonorService.DonorStore.PatchDonorAsWritten | DonorService.DonorStore.PatchDonor |
| src/models.py:113 | the patch loops assign with `self[key] = value`; model objects do not support item assignment, so this raises TypeError | `actualizar_perfil({"telefono": "5551234"})` on any profile | assign the value to the named column (`setattr`) | high, not executed | Models.PatchAttributesAsWritten | Models.Profile.UpdateProfile |

## Left out

- Flask wiring is left out: the app, routing, method dispatch, `jsonify`, CORS, the admin panel, the sitemap, migrations, configuration and `app.run`. It is framework plumbing. Each handler branch is a separate method of `DonorStore`.
- The SQLAlchemy engine and session are left out. The table is a map with a commit rule. Commit failures other than the `cedula` constraints come in through the `fault` parameter.
- The `String(80)` limits on `nombre` and `apellido` are not enforced. Whether a database rejects longer values depends on the engine, and such a failure falls under `fault`.
- Ids come from a counter that only a committed insert advances. This is a simplification of the model: a database key sequence also hands out an id to an insert that is rolled back, so the real ids can have gaps after a failed POST. Neither those skipped ids nor engines that reuse ids are modelled.
- Retrieval order is taken to be ascending id. `query.all()` has no `ORDER BY`, so the real order is whatever the database returns.
- Request bodies are JSON objects with string values, or absent. Not modelled: non-string values (a numeric `cedula`, or a non-string name whose `.lower()` raises), non-object JSON bodies, and non-numeric path ids.
- The file I/O of `cargar` and `salvar` is not modelled: opening the file, `json.load`/`json.dump`, and truncating the file in the bare `except`. Only their list mappings are modelled, and JSON encoding is taken to round-trip.
- `Visita.calcular_resultado` is not modelled: it is an unimplemented stub.
- `Perfil.crear`, `Visita.crear` and `Muestra.crear` are not modelled. They pass mismatched arguments to the constructors.
- `Donante.__str__` is not modelled: it is display formatting only.
- The `Visita` constructor reads the wall clock. Here the time is the constructor's `now` parameter.
- The text of `error.args` in 500 bodies is not modelled; `StoreError` names only the kind of failure. The `print` logging is left out too.
- Column defaults that the database applies on insert are not modelled (`hepatitis`, `VIH`, `tiene_enfermedad` false). In memory these columns are unset until assigned.
- AsciiText.Lower: maps only the ASCII letters; Python's Unicode case mapping is not modelled.
- AsciiText.Capitalize: upper-cases only ASCII letters; Python's title-casing of other characters is not modelled.
- Models.PatchAttributesAsWritten: `ProfileAttributes` and `VisitAttributes` list columns, relationships and the classes' own methods. Names inherited from the framework base class (`query`, `metadata`, dunder names) are not listed, though `hasattr` finds them too.
- Models.Profile.UpdateProfile: the corrected loop assigns columns only (an allow-list). It does not assign every name `hasattr` accepts.
