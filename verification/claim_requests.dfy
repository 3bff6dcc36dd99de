/** The request bodies the backend accepts (`CreateClaimRequest`,
    `ClaimStatusRequest`) and the Bean Validation constraints on them, which the
    controller's `@Valid` checks before the service is called. A JSON `null` or a
    missing member is `None`. */
module ClaimRequests {
  import opened Common
  import opened Strings
  import opened StatusEnum

  datatype CreateClaimRequest = CreateClaimRequest(
    title: Option<string>,
    description: Option<string>,
    customerId: Option<int>)

  datatype ClaimStatusRequest = ClaimStatusRequest(
    status: Option<EstadoReclamoEnum>,
    notes: Option<string>,
    asesorEmail: Option<string>)

  const TitleRequired: string := "Title is required"
  const DescriptionRequired: string := "Description is required"
  const CustomerIdRequired: string := "Customer ID is required"
  const StatusRequired: string := "Status is required"

  /** `@NotBlank`: present, and not made only of code units up to U+0020. */
  predicate NotBlank(s: Option<string>)
  {
    s.Some? && !IsBlank(s.value)
  }

  /** The constraint messages a create request violates. Bean Validation reports
      a set of violations, so no order is implied. */
  function CreateViolations(req: CreateClaimRequest): (r: set<string>)
    ensures TitleRequired in r <==> !NotBlank(req.title)
    ensures DescriptionRequired in r <==> !NotBlank(req.description)
    ensures CustomerIdRequired in r <==> req.customerId.None?
    ensures r <= {TitleRequired, DescriptionRequired, CustomerIdRequired}
  {
    (if NotBlank(req.title) then {} else {TitleRequired})
    + (if NotBlank(req.description) then {} else {DescriptionRequired})
    + (if req.customerId.Some? then {} else {CustomerIdRequired})
  }

  /** A create request passes `@Valid`. */
  predicate ValidCreate(req: CreateClaimRequest)
  {
    CreateViolations(req) == {}
  }

  /** Valid exactly when the title and description are not blank and the
      customer id is present; there are no length bounds. */
  lemma ValidCreateIff(req: CreateClaimRequest)
    ensures ValidCreate(req) <==> NotBlank(req.title) && NotBlank(req.description) && req.customerId.Some?
  {
    var r := CreateViolations(req);
    if !NotBlank(req.title) { assert TitleRequired in r; }
    if !NotBlank(req.description) { assert DescriptionRequired in r; }
    if req.customerId.None? { assert CustomerIdRequired in r; }
  }

  /** The three rejected bodies of the controller's tests: an empty title, an
      empty description and a `null` customer id. */
  lemma EmptyFieldsRejected()
    ensures !ValidCreate(CreateClaimRequest(Some(""), Some("Test Description"), Some(123)))
    ensures !ValidCreate(CreateClaimRequest(Some("Test Claim"), Some(""), Some(123)))
    ensures !ValidCreate(CreateClaimRequest(Some("Test Claim"), Some("Test Description"), None))
  {
    ValidCreateIff(CreateClaimRequest(Some(""), Some("Test Description"), Some(123)));
    ValidCreateIff(CreateClaimRequest(Some("Test Claim"), Some(""), Some(123)));
    ValidCreateIff(CreateClaimRequest(Some("Test Claim"), Some("Test Description"), None));
  }

  /** The constraint messages a status request violates. */
  function StatusViolations(req: ClaimStatusRequest): (r: set<string>)
    ensures r == {} <==> req.status.Some?
    ensures r != {} ==> r == {StatusRequired}
  {
    if req.status.Some? then {} else {StatusRequired}
  }

  /** A status request passes `@Valid`; notes and the advisor's e-mail are free. */
  predicate ValidStatus(req: ClaimStatusRequest)
  {
    StatusViolations(req) == {}
  }
}
