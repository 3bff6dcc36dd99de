/** The backend claim service (`ClaimService`) over an abstract store: a map from
    claim id to a claim that holds its status history and its attachments. The
    database's generated ids are counters in the store, the clock that stamps new
    rows is a `now` parameter, and the random UUID behind a claim code is an input.
    Each operation runs in one transaction, so a call that fails leaves the store
    as it was. */
module ClaimService {
  import opened Common
  import opened Strings
  import opened Seqs
  import opened StatusEnum
  import opened ClaimRequests
  import StatusConverter

  // ---------------------------------------------------------------- entities

  /** A row of a claim's status history (`EstadoReclamo`). `estado` is the status
      as the converter decodes the stored column: `None` for a blank column,
      which reads as `null` although the column is NOT NULL. The service itself
      only writes present statuses. */
  datatype EstadoReclamo = EstadoReclamo(
    id: int,
    estado: Option<EstadoReclamoEnum>,
    notas: Option<string>,
    asesorEmail: Option<string>,
    fechaCreacion: int)

  /** A stored attachment (`AdjuntoReclamo`). */
  datatype AdjuntoReclamo = AdjuntoReclamo(
    id: int,
    nombreArchivo: string,
    tipoContenido: Option<string>,
    tamanoBytes: nat,
    urlArchivo: string,
    fechaSubida: int)

  /** A stored claim (`Reclamo`); the columns declared `nullable = false` are not
      optional here. */
  datatype Reclamo = Reclamo(
    id: int,
    codigo: string,
    titulo: string,
    descripcion: Option<string>,
    clienteId: int,
    fechaCreacion: int,
    fechaActualizacion: int,
    estados: seq<EstadoReclamo>,
    adjuntos: seq<AdjuntoReclamo>)

  // ---------------------------------------------------------------- current status

  /** Entry `i` is the first entry of the history with the greatest creation time. */
  predicate IsFirstLatest(estados: seq<EstadoReclamo>, i: int)
  {
    0 <= i < |estados|
    && (forall j :: 0 <= j < |estados| ==> estados[j].fechaCreacion <= estados[i].fechaCreacion)
    && (forall j :: 0 <= j < i ==> estados[j].fechaCreacion < estados[i].fechaCreacion)
  }

  /** There is at most one first latest entry. */
  lemma FirstLatestUnique(estados: seq<EstadoReclamo>, i: int, j: int)
    requires IsFirstLatest(estados, i) && IsFirstLatest(estados, j)
    ensures i == j
  {
    assert estados[i].fechaCreacion == estados[j].fechaCreacion;
  }

  /** `stream().max(comparator)`: the reduction keeps the entry found so far unless
      the next one is strictly later, so ties go to the earliest entry. `best` is
      the index kept after scanning the entries before `i`. */
  function LatestFrom(estados: seq<EstadoReclamo>, best: nat, i: nat): (r: nat)
    requires best < i <= |estados|
    requires forall j :: 0 <= j < i ==> estados[j].fechaCreacion <= estados[best].fechaCreacion
    requires forall j :: 0 <= j < best ==> estados[j].fechaCreacion < estados[best].fechaCreacion
    ensures IsFirstLatest(estados, r)
    decreases |estados| - i
  {
    if i == |estados| then best
    else if estados[best].fechaCreacion >= estados[i].fechaCreacion then LatestFrom(estados, best, i + 1)
    else LatestFrom(estados, i, i + 1)
  }

  /** `.map(EstadoReclamo::getEstado).orElse(INGRESADO)`: a `null` status makes
      the `Optional` empty, so it is reported as INGRESADO. */
  function ShownStatus(estado: Option<EstadoReclamoEnum>): (r: EstadoReclamoEnum)
    ensures estado.Some? ==> r == estado.value
    ensures estado.None? ==> r == INGRESADO
  {
    match estado
    case Some(e) => e
    case None => INGRESADO
  }

  /** The status shown for a claim: that of its first latest history entry, and
      INGRESADO when the history is empty or that entry's status is `null`. */
  function CurrentStatus(estados: seq<EstadoReclamo>): (r: EstadoReclamoEnum)
    ensures |estados| == 0 ==> r == INGRESADO
    ensures |estados| > 0 ==> exists i :: IsFirstLatest(estados, i) && r == ShownStatus(estados[i].estado)
    ensures forall i :: IsFirstLatest(estados, i) ==> r == ShownStatus(estados[i].estado)
  {
    if |estados| == 0 then INGRESADO
    else
      var b := LatestFrom(estados, 0, 1);
      assert forall i :: IsFirstLatest(estados, i) ==> i == b by {
        forall i | IsFirstLatest(estados, i) ensures i == b {
          FirstLatestUnique(estados, i, b);
        }
      }
      ShownStatus(estados[b].estado)
  }

  /** A latest entry whose stored status column is blank decodes to `null` and so
      shows as INGRESADO, whatever the earlier entries say. */
  lemma BlankLatestShowsIngresado(estados: seq<EstadoReclamo>, i: nat, column: string)
    requires IsFirstLatest(estados, i) && IsBlank(column)
    requires StatusConverter.ConvertToEntityAttribute(Some(column)) == Ok(estados[i].estado)
    ensures CurrentStatus(estados) == INGRESADO
  {
    StatusConverter.BlankReadsAsNull(column);
  }

  /** A history of one entry has that entry's status. */
  lemma SingleEntryIsCurrent(e: EstadoReclamo)
    ensures CurrentStatus([e]) == ShownStatus(e.estado)
  {
    assert IsFirstLatest([e], 0);
  }

  /** An entry stamped strictly after every earlier one becomes the current status. */
  lemma LaterEntryBecomesCurrent(estados: seq<EstadoReclamo>, e: EstadoReclamo)
    requires forall j :: 0 <= j < |estados| ==> estados[j].fechaCreacion < e.fechaCreacion
    ensures CurrentStatus(estados + [e]) == ShownStatus(e.estado)
  {
    assert IsFirstLatest(estados + [e], |estados|);
  }

  /** An entry stamped no later than the current one does not displace it, even
      when it ties. */
  lemma EarlierOrTiedEntryKeepsCurrent(estados: seq<EstadoReclamo>, e: EstadoReclamo, i: nat)
    requires IsFirstLatest(estados, i)
    requires e.fechaCreacion <= estados[i].fechaCreacion
    ensures CurrentStatus(estados + [e]) == CurrentStatus(estados)
  {
    assert IsFirstLatest(estados + [e], i);
  }

  // ---------------------------------------------------------------- store

  datatype Store = Store(
    reclamos: map<int, Reclamo>,
    nextClaimId: int,
    nextStatusId: int,
    nextAttachmentId: int)

  /** Some stored claim already has the code `code`. */
  predicate CodeInUse(st: Store, code: string)
  {
    exists id :: id in st.reclamos && st.reclamos[id].codigo == code
  }

  /** The store's invariant: stored ids are positive and below the next id to be
      generated, each claim sits under its own id, every claim has a history, and
      no two claims share a code (the column is `unique`). */
  predicate Valid(st: Store)
  {
    && 0 < st.nextClaimId && 0 < st.nextStatusId && 0 < st.nextAttachmentId
    && (forall id :: id in st.reclamos ==>
          0 < id < st.nextClaimId && st.reclamos[id].id == id && |st.reclamos[id].estados| > 0)
    && (forall id, k :: id in st.reclamos && 0 <= k < |st.reclamos[id].estados| ==>
          0 < st.reclamos[id].estados[k].id < st.nextStatusId)
    && (forall id, k :: id in st.reclamos && 0 <= k < |st.reclamos[id].adjuntos| ==>
          0 < st.reclamos[id].adjuntos[k].id < st.nextAttachmentId)
    && (forall a, b :: a in st.reclamos && b in st.reclamos && st.reclamos[a].codigo == st.reclamos[b].codigo ==> a == b)
  }

  /** A fresh database: no claims, every sequence starting at 1. */
  function EmptyStore(): (st: Store)
    ensures Valid(st) && st.reclamos == map[]
  {
    Store(map[], 1, 1, 1)
  }

  /** Why a service call throws: `ClaimNotFoundException`, the empty-file
      `RuntimeException`, the database refusing a `null` in a NOT NULL column, or
      the database refusing a claim code already stored in the unique column. */
  datatype ServiceError =
    | ClaimNotFound(message: string)
    | EmptyFile(message: string)
    | NotNullViolation
    | DuplicateCode

  /** The message `ClaimNotFoundException(Long id)` builds. */
  function NotFoundMessage(id: int): string
  {
    "Claim not found with id: " + IntToString(id)
  }

  /** Different ids give different not-found messages. */
  lemma NotFoundMessageNamesId(a: int, b: int)
    requires NotFoundMessage(a) == NotFoundMessage(b)
    ensures a == b
  {
    var p := "Claim not found with id: ";
    assert IntToString(a) == NotFoundMessage(a)[|p|..];
    assert IntToString(b) == NotFoundMessage(b)[|p|..];
    IntToStringInjective(a, b);
  }

  // ---------------------------------------------------------------- responses

  datatype ClaimResponse = ClaimResponse(
    id: int,
    title: string,
    description: Option<string>,
    customerId: int,
    currentStatus: EstadoReclamoEnum,
    createdAt: int,
    lastUpdated: int)

  datatype ClaimStatusHistory = ClaimStatusHistory(
    id: int,
    status: Option<EstadoReclamoEnum>,
    notes: Option<string>,
    createdAt: int)

  datatype ClaimAttachment = ClaimAttachment(
    id: int,
    fileName: string,
    fileType: Option<string>,
    fileSize: nat,
    uploadedAt: int)

  datatype ClaimDetailResponse = ClaimDetailResponse(
    id: int,
    title: string,
    description: Option<string>,
    customerId: int,
    currentStatus: EstadoReclamoEnum,
    createdAt: int,
    lastUpdated: int,
    statusHistory: seq<ClaimStatusHistory>,
    attachments: seq<ClaimAttachment>)

  /** The list endpoints' mapping of one claim. */
  function Summarize(c: Reclamo): ClaimResponse
  {
    ClaimResponse(c.id, c.titulo, c.descripcion, c.clienteId, CurrentStatus(c.estados),
                  c.fechaCreacion, c.fechaActualizacion)
  }

  function HistoryEntry(e: EstadoReclamo): ClaimStatusHistory
  {
    ClaimStatusHistory(e.id, e.estado, e.notas, e.fechaCreacion)
  }

  function AttachmentEntry(a: AdjuntoReclamo): ClaimAttachment
  {
    ClaimAttachment(a.id, a.nombreArchivo, a.tipoContenido, a.tamanoBytes, a.fechaSubida)
  }

  /** `getAllClaimsWithLastStatus` and `getClaimsWithFilters` after their
      repository query: one response per claim the query returned, in its order. */
  function ListClaims(found: seq<Reclamo>): (r: seq<ClaimResponse>)
    ensures |r| == |found|
    ensures forall i :: 0 <= i < |found| ==>
      r[i].id == found[i].id && r[i].title == found[i].titulo
      && r[i].description == found[i].descripcion && r[i].customerId == found[i].clienteId
      && r[i].createdAt == found[i].fechaCreacion && r[i].lastUpdated == found[i].fechaActualizacion
      && r[i].currentStatus == CurrentStatus(found[i].estados)
  {
    Map(found, Summarize)
  }

  /** `getClaimDetailsById`. */
  function GetClaimDetailsById(st: Store, id: int): (r: Result<ClaimDetailResponse, ServiceError>)
    ensures r.Err? <==> id !in st.reclamos
    ensures r.Err? ==> r.error == ClaimNotFound(NotFoundMessage(id))
    ensures r.Ok? ==>
      var c, d := st.reclamos[id], r.value;
      d.id == c.id && d.title == c.titulo && d.description == c.descripcion
      && d.customerId == c.clienteId && d.createdAt == c.fechaCreacion
      && d.lastUpdated == c.fechaActualizacion
      && d.currentStatus == CurrentStatus(c.estados)
      && |d.statusHistory| == |c.estados|
      && (forall k :: 0 <= k < |c.estados| ==> d.statusHistory[k] == HistoryEntry(c.estados[k]))
      && |d.attachments| == |c.adjuntos|
      && (forall k :: 0 <= k < |c.adjuntos| ==> d.attachments[k] == AttachmentEntry(c.adjuntos[k]))
  {
    if id !in st.reclamos then Err(ClaimNotFound(NotFoundMessage(id)))
    else
      var c := st.reclamos[id];
      Ok(ClaimDetailResponse(c.id, c.titulo, c.descripcion, c.clienteId, CurrentStatus(c.estados),
                             c.fechaCreacion, c.fechaActualizacion,
                             Map(c.estados, HistoryEntry), Map(c.adjuntos, AttachmentEntry)))
  }

  /** The list and detail views of a stored claim report the same current status
      and the same fields. */
  lemma ListAndDetailAgree(st: Store, id: int)
    requires id in st.reclamos
    ensures var s, d := ListClaims([st.reclamos[id]])[0], GetClaimDetailsById(st, id).value;
      s.currentStatus == d.currentStatus && s.id == d.id && s.title == d.title
      && s.customerId == d.customerId && s.createdAt == d.createdAt
  {
  }

  // ---------------------------------------------------------------- create

  const InitialNote: string := "Reclamo creado exitosamente"

  /** The claim code: "CLM-" followed by the first eight characters of a UUID,
      upper-cased. */
  function ClaimCode(uuid: string): (r: string)
    requires |uuid| >= 8
    ensures |r| == 12 && StartsWith(r, "CLM-")
    ensures forall i :: 4 <= i < 12 ==> !IsLower(r[i])
  {
    "CLM-" + ToUpper(uuid[..8])
  }

  predicate IsLowerHex(c: char) { IsDigit(c) || 'a' <= c <= 'f' }

  predicate IsUpperHex(c: char) { IsDigit(c) || 'A' <= c <= 'F' }

  /** `UUID.toString()` starts with eight lower-case hexadecimal digits, so a
      code ends in eight upper-case ones. */
  lemma CodeOfUuid(uuid: string)
    requires |uuid| >= 8 && forall i :: 0 <= i < 8 ==> IsLowerHex(uuid[i])
    ensures forall i :: 4 <= i < 12 ==> IsUpperHex(ClaimCode(uuid)[i])
  {
    var u := ToUpper(uuid[..8]);
    assert forall i :: 0 <= i < 8 ==> u[i] == UpperChar(uuid[i]) by {
      ToUpperAt(uuid[..8]);
    }
    assert forall i :: 4 <= i < 12 ==> ClaimCode(uuid)[i] == u[i - 4];
  }

  /** The result of `createClaim`: the store after it and the response. */
  datatype Created = Created(store: Store, response: ClaimResponse)

  /** `createClaim`. The claim and its first history entry are saved in one
      transaction; a `null` title or customer id is refused by the NOT NULL
      columns, a code some stored claim already has is refused by the unique
      column, and then nothing is saved. A row breaking both is reported as the
      NOT NULL violation. */
  function CreateClaim(st: Store, req: CreateClaimRequest, uuid: string, now: int): (r: Result<Created, ServiceError>)
    requires |uuid| >= 8
    ensures r.Err? <==> req.title.None? || req.customerId.None? || CodeInUse(st, ClaimCode(uuid))
    ensures req.title.None? || req.customerId.None? ==> r == Err(NotNullViolation)
    ensures req.title.Some? && req.customerId.Some? && CodeInUse(st, ClaimCode(uuid)) ==> r == Err(DuplicateCode)
    ensures r.Ok? ==>
      var id, st' := st.nextClaimId, r.value.store;
      st'.reclamos.Keys == st.reclamos.Keys + {id}
      && (forall k :: k in st.reclamos && k != id ==> st'.reclamos[k] == st.reclamos[k])
      && st'.reclamos[id].codigo == ClaimCode(uuid)
      && st'.reclamos[id].estados == [EstadoReclamo(st.nextStatusId, Some(INGRESADO), Some(InitialNote), None, now)]
      && st'.reclamos[id].adjuntos == []
      && r.value.response == ClaimResponse(id, req.title.value, req.description, req.customerId.value,
                                           INGRESADO, now, now)
  {
    if req.title.None? || req.customerId.None? then Err(NotNullViolation)
    else if CodeInUse(st, ClaimCode(uuid)) then Err(DuplicateCode)
    else
      var id := st.nextClaimId;
      var initial := EstadoReclamo(st.nextStatusId, Some(INGRESADO), Some(InitialNote), None, now);
      var c := Reclamo(id, ClaimCode(uuid), req.title.value, req.description, req.customerId.value,
                       now, now, [initial], []);
      SingleEntryIsCurrent(initial);
      Ok(Created(st.(reclamos := st.reclamos[id := c], nextClaimId := id + 1, nextStatusId := st.nextStatusId + 1),
                 ClaimResponse(id, c.titulo, c.descripcion, c.clienteId, INGRESADO, now, now)))
  }

  /** Creating a claim keeps the store valid, codes included, and adds a claim
      under a new id. */
  lemma CreateKeepsValid(st: Store, req: CreateClaimRequest, uuid: string, now: int)
    requires Valid(st) && |uuid| >= 8
    requires CreateClaim(st, req, uuid, now).Ok?
    ensures Valid(CreateClaim(st, req, uuid, now).value.store)
    ensures CreateClaim(st, req, uuid, now).value.response.id !in st.reclamos
  {
  }

  /** A request that passed validation never hits a NOT NULL column, so it is
      created unless its code is already stored. */
  lemma ValidRequestIsCreated(st: Store, req: CreateClaimRequest, uuid: string, now: int)
    requires ValidCreate(req) && |uuid| >= 8
    ensures CreateClaim(st, req, uuid, now).Ok? <==> !CodeInUse(st, ClaimCode(uuid))
  {
    ValidCreateIff(req);
  }

  /** Reading a claim back right after creating it: its status is INGRESADO, its
      history is the single creation entry, and it has no attachments. */
  lemma CreatedClaimReadsBack(st: Store, req: CreateClaimRequest, uuid: string, now: int)
    requires |uuid| >= 8
    requires CreateClaim(st, req, uuid, now).Ok?
    ensures var c := CreateClaim(st, req, uuid, now).value;
      var d := GetClaimDetailsById(c.store, c.response.id);
      d.Ok? && d.value.currentStatus == INGRESADO && d.value.title == req.title.value
      && d.value.statusHistory == [ClaimStatusHistory(st.nextStatusId, Some(INGRESADO), Some(InitialNote), now)]
      && d.value.attachments == []
  {
    var c := CreateClaim(st, req, uuid, now).value;
    var d := GetClaimDetailsById(c.store, c.response.id);
    assert |d.value.statusHistory| == 1;
  }

  // ---------------------------------------------------------------- add status

  /** `addStatusToClaim`: appends one history entry; the claim row itself is not
      touched, so its update time stays. */
  function AddStatusToClaim(st: Store, claimId: int, req: ClaimStatusRequest, now: int): (r: Result<Store, ServiceError>)
    ensures r.Err? <==> claimId !in st.reclamos || req.status.None?
    ensures claimId !in st.reclamos ==> r == Err(ClaimNotFound(NotFoundMessage(claimId)))
    ensures claimId in st.reclamos && req.status.None? ==> r == Err(NotNullViolation)
    ensures r.Ok? ==>
      var c, st' := st.reclamos[claimId], r.value;
      st'.reclamos.Keys == st.reclamos.Keys
      && (forall k :: k in st.reclamos && k != claimId ==> st'.reclamos[k] == st.reclamos[k])
      && st'.reclamos[claimId]
         == c.(estados := c.estados + [EstadoReclamo(st.nextStatusId, Some(req.status.value), req.notes, req.asesorEmail, now)])
      && st'.nextClaimId == st.nextClaimId && st'.nextAttachmentId == st.nextAttachmentId
  {
    if claimId !in st.reclamos then Err(ClaimNotFound(NotFoundMessage(claimId)))
    else if req.status.None? then Err(NotNullViolation)
    else
      var c := st.reclamos[claimId];
      var e := EstadoReclamo(st.nextStatusId, Some(req.status.value), req.notes, req.asesorEmail, now);
      Ok(st.(reclamos := st.reclamos[claimId := c.(estados := c.estados + [e])],
             nextStatusId := st.nextStatusId + 1))
  }

  lemma AddStatusKeepsValid(st: Store, claimId: int, req: ClaimStatusRequest, now: int)
    requires Valid(st) && AddStatusToClaim(st, claimId, req, now).Ok?
    ensures Valid(AddStatusToClaim(st, claimId, req, now).value)
  {
    var st' := AddStatusToClaim(st, claimId, req, now).value;
    forall id, k | id in st'.reclamos && 0 <= k < |st'.reclamos[id].estados|
      ensures 0 < st'.reclamos[id].estados[k].id < st'.nextStatusId
    {
      if id == claimId && k == |st.reclamos[id].estados| {
      } else {
        assert st'.reclamos[id].estados[k] == st.reclamos[id].estados[k];
      }
    }
    forall a, b | a in st'.reclamos && b in st'.reclamos && st'.reclamos[a].codigo == st'.reclamos[b].codigo
      ensures a == b
    {
      assert st'.reclamos[a].codigo == st.reclamos[a].codigo;
      assert st'.reclamos[b].codigo == st.reclamos[b].codigo;
    }
  }

  /** A status added later than every earlier entry is what the claim's detail
      reports as current afterwards. */
  lemma AddedStatusBecomesCurrent(st: Store, claimId: int, req: ClaimStatusRequest, now: int)
    requires AddStatusToClaim(st, claimId, req, now).Ok?
    requires forall k :: 0 <= k < |st.reclamos[claimId].estados| ==> st.reclamos[claimId].estados[k].fechaCreacion < now
    ensures GetClaimDetailsById(AddStatusToClaim(st, claimId, req, now).value, claimId).value.currentStatus
            == req.status.value
  {
    var c := st.reclamos[claimId];
    LaterEntryBecomesCurrent(c.estados, EstadoReclamo(st.nextStatusId, Some(req.status.value), req.notes, req.asesorEmail, now));
  }

  /** A status added at the same instant as the current one does not change what
      is reported: the earlier entry wins the tie. */
  lemma TiedStatusDoesNotChangeCurrent(st: Store, claimId: int, req: ClaimStatusRequest, i: nat)
    requires claimId in st.reclamos && req.status.Some?
    requires IsFirstLatest(st.reclamos[claimId].estados, i)
    ensures var now := st.reclamos[claimId].estados[i].fechaCreacion;
      GetClaimDetailsById(AddStatusToClaim(st, claimId, req, now).value, claimId).value.currentStatus
      == CurrentStatus(st.reclamos[claimId].estados)
  {
    var c := st.reclamos[claimId];
    var now := c.estados[i].fechaCreacion;
    EarlierOrTiedEntryKeepsCurrent(c.estados, EstadoReclamo(st.nextStatusId, Some(req.status.value), req.notes, req.asesorEmail, now), i);
  }

  // ---------------------------------------------------------------- attachments

  /** The uploaded part (`MultipartFile`); it is empty when it has no bytes. */
  datatype MultipartFile = MultipartFile(
    originalFilename: Option<string>,
    contentType: Option<string>,
    size: nat)

  const EmptyFileText: string := "File cannot be empty"

  /** The stored path: "/uploads/", the claim id, "/", the file name. */
  function UploadPath(claimId: int, fileName: string): (r: string)
    ensures StartsWith(r, "/uploads/") && |r| > |"/uploads/"| + |fileName|
    ensures r[|r| - |fileName|..] == fileName
    ensures r[|r| - |fileName| - 1] == '/'
    ensures r[|"/uploads/"|..|r| - |fileName| - 1] == IntToString(claimId)
  {
    "/uploads/" + IntToString(claimId) + "/" + fileName
  }

  /** The directory names the claim: one file name uploaded to two different
      claims is stored at two different paths. */
  lemma UploadPathInjective(a: int, b: int, fileName: string)
    requires UploadPath(a, fileName) == UploadPath(b, fileName)
    ensures a == b
  {
    IntToStringInjective(a, b);
  }

  /** The path the service's tests expect for claim 1. */
  lemma UploadPathOfClaimOne()
    ensures UploadPath(1, "document.pdf") == "/uploads/1/document.pdf"
  {
  }

  /** `addAttachmentToClaim`: the claim must exist (checked first), the file must
      not be empty, and its name fills a NOT NULL column. */
  function AddAttachmentToClaim(st: Store, claimId: int, file: MultipartFile, now: int): (r: Result<Store, ServiceError>)
    ensures r.Err? <==> claimId !in st.reclamos || file.size == 0 || file.originalFilename.None?
    ensures claimId !in st.reclamos ==> r == Err(ClaimNotFound(NotFoundMessage(claimId)))
    ensures claimId in st.reclamos && file.size == 0 ==> r == Err(EmptyFile(EmptyFileText))
    ensures claimId in st.reclamos && file.size > 0 && file.originalFilename.None? ==> r == Err(NotNullViolation)
    ensures r.Ok? ==>
      var c, st', name := st.reclamos[claimId], r.value, file.originalFilename.value;
      st'.reclamos.Keys == st.reclamos.Keys
      && (forall k :: k in st.reclamos && k != claimId ==> st'.reclamos[k] == st.reclamos[k])
      && st'.reclamos[claimId] == c.(adjuntos := c.adjuntos + [
           AdjuntoReclamo(st.nextAttachmentId, name, file.contentType, file.size, UploadPath(claimId, name), now)])
      && st'.nextClaimId == st.nextClaimId && st'.nextStatusId == st.nextStatusId
  {
    if claimId !in st.reclamos then Err(ClaimNotFound(NotFoundMessage(claimId)))
    else if file.size == 0 then Err(EmptyFile(EmptyFileText))
    else if file.originalFilename.None? then Err(NotNullViolation)
    else
      var c := st.reclamos[claimId];
      var name := file.originalFilename.value;
      var a := AdjuntoReclamo(st.nextAttachmentId, name, file.contentType, file.size, UploadPath(claimId, name), now);
      Ok(st.(reclamos := st.reclamos[claimId := c.(adjuntos := c.adjuntos + [a])],
             nextAttachmentId := st.nextAttachmentId + 1))
  }

  lemma AddAttachmentKeepsValid(st: Store, claimId: int, file: MultipartFile, now: int)
    requires Valid(st) && AddAttachmentToClaim(st, claimId, file, now).Ok?
    ensures Valid(AddAttachmentToClaim(st, claimId, file, now).value)
  {
    var st' := AddAttachmentToClaim(st, claimId, file, now).value;
    forall id, k | id in st'.reclamos && 0 <= k < |st'.reclamos[id].adjuntos|
      ensures 0 < st'.reclamos[id].adjuntos[k].id < st'.nextAttachmentId
    {
      if id == claimId && k == |st.reclamos[id].adjuntos| {
      } else {
        assert st'.reclamos[id].adjuntos[k] == st.reclamos[id].adjuntos[k];
      }
    }
    forall a, b | a in st'.reclamos && b in st'.reclamos && st'.reclamos[a].codigo == st'.reclamos[b].codigo
      ensures a == b
    {
      assert st'.reclamos[a].codigo == st.reclamos[a].codigo;
      assert st'.reclamos[b].codigo == st.reclamos[b].codigo;
    }
  }

  /** An uploaded file shows up last among the claim's attachments, under its
      name, type and size, and the current status does not change. */
  lemma UploadedFileReadsBack(st: Store, claimId: int, file: MultipartFile, now: int)
    requires AddAttachmentToClaim(st, claimId, file, now).Ok?
    ensures var d := GetClaimDetailsById(AddAttachmentToClaim(st, claimId, file, now).value, claimId).value;
      |d.attachments| == |st.reclamos[claimId].adjuntos| + 1
      && d.attachments[|d.attachments| - 1]
         == ClaimAttachment(st.nextAttachmentId, file.originalFilename.value, file.contentType, file.size, now)
      && d.currentStatus == CurrentStatus(st.reclamos[claimId].estados)
  {
  }
}
