/** The REST controller (`ClaimController`): which service call each request
    reaches and what it answers. A body annotated `@Valid` is checked before the
    service is called, and one that fails is answered 400 by the framework. A
    service exception is not caught here: the reply is `Raised` with it. */
module ClaimController {
  import opened Common
  import opened Strings
  import opened StatusEnum
  import opened ClaimRequests
  import ClaimService

  const HttpOk: int := 200
  const HttpCreated: int := 201
  const HttpBadRequest: int := 400

  datatype Reply<T> = Reply(code: int, body: Option<T>) | Raised(error: ClaimService.ServiceError)

  /** What a request does: the reply and the store after it. */
  datatype Exchange<T> = Exchange(reply: Reply<T>, store: ClaimService.Store)

  // ---------------------------------------------------------------- listing

  /** The list endpoint uses the filtered query when a status is given or the
      search text has a character above U+0020. */
  predicate UsesFilteredQuery(status: Option<EstadoReclamoEnum>, search: Option<string>)
    ensures UsesFilteredQuery(status, search) <==>
      status.Some? || (search.Some? && exists i :: 0 <= i < |search.value| && !IsJavaSpace(search.value[i]))
  {
    if search.Some? then
      BlankIff(search.value);
      status.Some? || !IsBlank(search.value)
    else status.Some?
  }

  /** `getAllClaims`, given what the filtered and the unfiltered repository
      queries return. */
  function GetAllClaims(status: Option<EstadoReclamoEnum>, search: Option<string>,
                        filtered: seq<ClaimService.Reclamo>, all: seq<ClaimService.Reclamo>)
    : (r: Reply<seq<ClaimService.ClaimResponse>>)
    ensures r.Reply? && r.code == HttpOk && r.body.Some?
    ensures |r.body.value| == if UsesFilteredQuery(status, search) then |filtered| else |all|
  {
    if UsesFilteredQuery(status, search) then Reply(HttpOk, Some(ClaimService.ListClaims(filtered)))
    else Reply(HttpOk, Some(ClaimService.ListClaims(all)))
  }

  /** Without a status, a missing search or one made only of spaces and control
      characters lists every claim. */
  lemma NoCriteriaListsAll(search: Option<string>, filtered: seq<ClaimService.Reclamo>, all: seq<ClaimService.Reclamo>)
    requires search.None? || forall i :: 0 <= i < |search.value| ==> IsJavaSpace(search.value[i])
    ensures GetAllClaims(None, search, filtered, all) == Reply(HttpOk, Some(ClaimService.ListClaims(all)))
  {
    if search.Some? {
      BlankIff(search.value);
    }
  }

  /** A search holding any visible character, or any status, uses the filtered
      query. */
  lemma CriteriaListFiltered(status: Option<EstadoReclamoEnum>, search: Option<string>, i: nat,
                             filtered: seq<ClaimService.Reclamo>, all: seq<ClaimService.Reclamo>)
    requires status.Some? || (search.Some? && i < |search.value| && !IsJavaSpace(search.value[i]))
    ensures GetAllClaims(status, search, filtered, all) == Reply(HttpOk, Some(ClaimService.ListClaims(filtered)))
  {
    if status.None? {
      NotBlankWhenVisible(search.value, i);
    }
  }

  // ---------------------------------------------------------------- create

  /** `createClaim`: 400 before the service runs, 201 with the created claim, or
      the service's exception when the generated code is already stored. */
  function CreateClaim(st: ClaimService.Store, req: CreateClaimRequest, uuid: string, now: int)
    : (r: Exchange<ClaimService.ClaimResponse>)
    requires |uuid| >= 8
    ensures !ValidCreate(req) ==> r == Exchange(Reply(HttpBadRequest, None), st)
    ensures ValidCreate(req) && ClaimService.CodeInUse(st, ClaimService.ClaimCode(uuid)) ==>
      r == Exchange(Raised(ClaimService.DuplicateCode), st)
    ensures ValidCreate(req) && !ClaimService.CodeInUse(st, ClaimService.ClaimCode(uuid)) ==>
      var c := ClaimService.CreateClaim(st, req, uuid, now);
      c.Ok? && r == Exchange(Reply(HttpCreated, Some(c.value.response)), c.value.store)
  {
    if !ValidCreate(req) then Exchange(Reply(HttpBadRequest, None), st)
    else
      ClaimService.ValidRequestIsCreated(st, req, uuid, now);
      match ClaimService.CreateClaim(st, req, uuid, now)
      case Ok(c) => Exchange(Reply(HttpCreated, Some(c.response)), c.store)
      case Err(e) => Exchange(Raised(e), st)
  }

  /** A created claim answers with status INGRESADO and echoes the request. */
  lemma CreatedReplyEchoesRequest(st: ClaimService.Store, req: CreateClaimRequest, uuid: string, now: int)
    requires |uuid| >= 8 && ValidCreate(req) && !ClaimService.CodeInUse(st, ClaimService.ClaimCode(uuid))
    ensures var b := CreateClaim(st, req, uuid, now).reply.body.value;
      b.currentStatus == INGRESADO && Some(b.title) == req.title
      && b.description == req.description && Some(b.customerId) == req.customerId
  {
  }

  // ---------------------------------------------------------------- read one

  /** `getClaimById`: 200 with the details, or the service's not-found exception. */
  function GetClaimById(st: ClaimService.Store, id: int): (r: Reply<ClaimService.ClaimDetailResponse>)
    ensures r.Raised? <==> id !in st.reclamos
    ensures r.Raised? ==> r.error == ClaimService.ClaimNotFound(ClaimService.NotFoundMessage(id))
    ensures r.Reply? ==> r.code == HttpOk && r.body == Some(ClaimService.GetClaimDetailsById(st, id).value)
  {
    match ClaimService.GetClaimDetailsById(st, id)
    case Ok(d) => Reply(HttpOk, Some(d))
    case Err(e) => Raised(e)
  }

  // ---------------------------------------------------------------- update status

  /** `updateClaimStatus`: 400 for a body without a status, the not-found
      exception for an unknown claim, otherwise 200 with no body. */
  function UpdateClaimStatus(st: ClaimService.Store, id: int, req: ClaimStatusRequest, now: int)
    : (r: Exchange<()>)
    ensures !ValidStatus(req) ==> r == Exchange(Reply(HttpBadRequest, None), st)
    ensures ValidStatus(req) && id !in st.reclamos ==>
      r == Exchange(Raised(ClaimService.ClaimNotFound(ClaimService.NotFoundMessage(id))), st)
    ensures ValidStatus(req) && id in st.reclamos ==>
      r == Exchange(Reply(HttpOk, None), ClaimService.AddStatusToClaim(st, id, req, now).value)
  {
    if !ValidStatus(req) then Exchange(Reply(HttpBadRequest, None), st)
    else
      match ClaimService.AddStatusToClaim(st, id, req, now)
      case Ok(st') => Exchange(Reply(HttpOk, None), st')
      case Err(e) => Exchange(Raised(e), st)
  }

  /** Once a status passed validation, the only failure left is an unknown claim. */
  lemma ValidStatusFailsOnlyWhenMissing(st: ClaimService.Store, id: int, req: ClaimStatusRequest, now: int)
    requires ValidStatus(req)
    ensures UpdateClaimStatus(st, id, req, now).reply.Raised? ==>
      UpdateClaimStatus(st, id, req, now).reply.error.ClaimNotFound?
  {
  }

  // ---------------------------------------------------------------- upload

  /** `uploadAttachment`: no `@Valid`; the service's exceptions pass through. */
  function UploadAttachment(st: ClaimService.Store, id: int, file: ClaimService.MultipartFile, now: int)
    : (r: Exchange<()>)
    ensures r.reply.Raised? <==> ClaimService.AddAttachmentToClaim(st, id, file, now).Err?
    ensures r.reply.Raised? ==> r.store == st
    ensures r.reply.Reply? ==>
      r.reply == Reply(HttpOk, None) && r.store == ClaimService.AddAttachmentToClaim(st, id, file, now).value
  {
    match ClaimService.AddAttachmentToClaim(st, id, file, now)
    case Ok(st') => Exchange(Reply(HttpOk, None), st')
    case Err(e) => Exchange(Raised(e), st)
  }

  /** An empty upload to an unknown claim reports the missing claim, not the empty
      file: existence is checked first. */
  lemma MissingClaimReportedBeforeEmptyFile(st: ClaimService.Store, id: int, name: string, now: int)
    requires id !in st.reclamos
    ensures UploadAttachment(st, id, ClaimService.MultipartFile(Some(name), None, 0), now).reply
            == Raised(ClaimService.ClaimNotFound(ClaimService.NotFoundMessage(id)))
  {
  }

  /** Every request leaves a valid store valid. */
  lemma RequestsKeepStoreValid(st: ClaimService.Store, id: int, creq: CreateClaimRequest, sreq: ClaimStatusRequest,
                               file: ClaimService.MultipartFile, uuid: string, now: int)
    requires ClaimService.Valid(st) && |uuid| >= 8
    ensures ClaimService.Valid(CreateClaim(st, creq, uuid, now).store)
    ensures ClaimService.Valid(UpdateClaimStatus(st, id, sreq, now).store)
    ensures ClaimService.Valid(UploadAttachment(st, id, file, now).store)
  {
    assert ClaimService.Valid(CreateClaim(st, creq, uuid, now).store) by {
      if ValidCreate(creq) && ClaimService.CreateClaim(st, creq, uuid, now).Ok? {
        ClaimService.CreateKeepsValid(st, creq, uuid, now);
      }
    }
    assert ClaimService.Valid(UpdateClaimStatus(st, id, sreq, now).store) by {
      if ClaimService.AddStatusToClaim(st, id, sreq, now).Ok? {
        ClaimService.AddStatusKeepsValid(st, id, sreq, now);
      }
    }
    assert ClaimService.Valid(UploadAttachment(st, id, file, now).store) by {
      if ClaimService.AddAttachmentToClaim(st, id, file, now).Ok? {
        ClaimService.AddAttachmentKeepsValid(st, id, file, now);
      }
    }
  }
}
