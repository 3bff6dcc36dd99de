/** The claim detail page (`ClaimDetailComponent`): reading the claim id from the
    route, loading the claim, the status-change form and its submission, and the
    status colour and file icon helpers. The loaded claim is carried as an opaque
    payload `D`. */
module ClaimDetail {
  import opened Common
  import opened Strings
  import opened JsParse
  import opened ClaimModel
  import NewClaim

  /** `if (id)`: the route's id is used only when it parses to a non-zero number. */
  predicate ShouldLoad(param: string)
  {
    ParseInt(param).Some? && ParseInt(param).value != 0
  }

  /** Route ids written as decimal numbers load exactly when they are positive. */
  lemma ShouldLoadDecimal(n: nat)
    ensures ShouldLoad(NatToString(n)) <==> n > 0
  {
    ParseIntOfDecimal(n);
  }

  /** A route id that is not a number never loads. */
  lemma WordsDoNotLoad()
    ensures !ShouldLoad("abc") && !ShouldLoad("") && !ShouldLoad("0")
  {
    assert SkipSpace("abc") == "abc";
    assert DigitIn('a', 10).None?;
    assert SkipSpace("0") == "0";
    assert RunValue("0", 10) == 0;
  }

  // ---------------------------------------------------------------- page state

  datatype DetailState<D> = DetailState(
    claimId: int,
    claim: Option<D>,
    loading: bool,
    error: Option<string>,
    updatingStatus: bool,
    showStatusForm: bool,
    estado: Option<string>,
    notas: Option<string>)

  /** The state the constructor leaves: the form holds two empty strings. */
  function Initial<D>(): (r: DetailState<D>)
    ensures r.claimId == 0 && r.claim.None? && !r.showStatusForm
  {
    DetailState(0, None, false, None, false, false, Some(""), Some(""))
  }

  const LoadFailedText: string := "Failed to load claim details"

  /** `loadClaimDetail` before the response arrives. */
  function StartLoad<D>(st: DetailState<D>): (r: DetailState<D>)
    ensures r.loading && r.error.None? && r.claimId == st.claimId && r.claim == st.claim
  {
    st.(loading := true, error := None)
  }

  /** The route subscription: a usable id is stored and loading starts; anything
      else leaves the page as it is. */
  function OnRouteParams<D>(st: DetailState<D>, param: string): (r: DetailState<D>)
    ensures ShouldLoad(param) ==> r.claimId == ParseInt(param).value && r.loading && r.error.None?
    ensures !ShouldLoad(param) ==> r == st
  {
    if ShouldLoad(param) then StartLoad(st.(claimId := ParseInt(param).value)) else st
  }

  function OnClaimLoaded<D>(st: DetailState<D>, claim: D): (r: DetailState<D>)
    ensures r.claim == Some(claim) && !r.loading && r.error == st.error
  {
    st.(claim := Some(claim), loading := false)
  }

  /** A failed load reports the fixed message and keeps whatever claim was shown. */
  function OnClaimLoadFailed<D>(st: DetailState<D>): (r: DetailState<D>)
    ensures r.error == Some(LoadFailedText) && !r.loading && r.claim == st.claim
  {
    st.(error := Some(LoadFailedText), loading := false)
  }

  // ---------------------------------------------------------------- status form

  /** `toggleStatusForm`: opening the form resets both fields to `null`; closing
      keeps what was typed. */
  function ToggleStatusForm<D>(st: DetailState<D>): (r: DetailState<D>)
    ensures r.showStatusForm == !st.showStatusForm
    ensures r.showStatusForm ==> r.estado.None? && r.notas.None?
    ensures !r.showStatusForm ==> r.estado == st.estado && r.notas == st.notas
    ensures r.claim == st.claim && r.claimId == st.claimId
  {
    if !st.showStatusForm then st.(showStatusForm := true, estado := None, notas := None)
    else st.(showStatusForm := false)
  }

  /** Opening and closing the form returns to the same visibility, with an empty form. */
  lemma ToggleTwice<D>(st: DetailState<D>)
    requires !st.showStatusForm
    ensures var r := ToggleStatusForm(ToggleStatusForm(st));
      !r.showStatusForm && r.estado.None? && r.notas.None?
  {
  }

  /** `statusForm.valid`: `Validators.required` on `estado` rejects `null` and "". */
  predicate StatusFormValid<D>(st: DetailState<D>)
  {
    st.estado.Some? && st.estado.value != ""
  }

  /** The body sent to `addStatusToClaim`; `notas || undefined` drops empty notes. */
  datatype StatusUpdate = StatusUpdate(claimId: int, estado: string, notas: Option<string>)

  datatype NoticeKind = Success | Failure
  datatype Notice = Notice(kind: NoticeKind, text: string)

  const UpdatedText: string := "Status updated successfully!"
  const UpdateFailedText: string := "Failed to update status. Please try again."

  datatype UpdateOutcome<D> = UpdateOutcome(state: DetailState<D>, sent: Option<StatusUpdate>, notice: Option<Notice>)

  /** `onStatusUpdate`, given whether the call succeeds. */
  function OnStatusUpdate<D>(st: DetailState<D>, callSucceeds: bool): (r: UpdateOutcome<D>)
    ensures !StatusFormValid(st) ==> r == UpdateOutcome(st, None, None)
    ensures StatusFormValid(st) ==>
      r.sent == Some(StatusUpdate(st.claimId, st.estado.value,
                                  if st.notas == Some("") then None else st.notas))
      && !r.state.updatingStatus
    ensures StatusFormValid(st) && callSucceeds ==>
      r.notice == Some(Notice(Success, UpdatedText))
      && !r.state.showStatusForm && r.state.loading && r.state.error.None?
    ensures StatusFormValid(st) && !callSucceeds ==>
      r.notice == Some(Notice(Failure, UpdateFailedText))
      && r.state == st.(updatingStatus := false)
  {
    if !StatusFormValid(st) then UpdateOutcome(st, None, None)
    else
      var notas := if st.notas == Some("") then None else st.notas;
      var sent := StatusUpdate(st.claimId, st.estado.value, notas);
      if callSucceeds then
        UpdateOutcome(StartLoad(st).(showStatusForm := false, updatingStatus := false),
                      Some(sent), Some(Notice(Success, UpdatedText)))
      else
        UpdateOutcome(st.(updatingStatus := false), Some(sent), Some(Notice(Failure, UpdateFailedText)))
  }

  /** Right after opening the form nothing can be submitted: the reset leaves
      `estado` empty. */
  lemma FreshFormSendsNothing<D>(st: DetailState<D>, ok: bool)
    requires !st.showStatusForm
    ensures OnStatusUpdate(ToggleStatusForm(st), ok).sent.None?
  {
  }

  // ---------------------------------------------------------------- helpers

  /** `getStatusColor`. The switch arms naming members the enumeration does not
      have evaluate to `undefined`, so the first of them catches a status that is
      itself `undefined` (`None`) and no string. */
  function GetStatusColor(status: Option<string>): (r: string)
    ensures r == "primary" <==> status.None? || status == Some(Resuelto)
    ensures r == "accent" <==> status == Some(EnProceso)
    ensures r != "warn"
  {
    match status
    case None => "primary"
    case Some(s) =>
      if s == EnProceso then "accent"
      else if s == Resuelto then "primary"
      else ""
  }

  /** Unlike the dashboard, the detail page gives a newly entered claim no colour. */
  lemma IngresadoIsPlainHere()
    ensures GetStatusColor(Some(Ingresado)) == ""
  {
  }

  /** `getFileIcon` with optional chaining: a missing type gets the generic icon,
      and a present one the same icon as on the creation form. */
  function GetFileIcon(fileType: Option<string>): (r: string)
    ensures fileType.None? ==> r == "insert_drive_file"
    ensures fileType.Some? ==> r == NewClaim.GetFileIcon(fileType.value)
  {
    match fileType
    case None => "insert_drive_file"
    case Some(t) =>
      if StartsWith(t, "image/") then "image"
      else if t == "application/pdf" then "picture_as_pdf"
      else if Contains(t, "word") then "description"
      else "insert_drive_file"
  }

  /** `downloadAttachment`'s message; a missing `fileName` prints as "undefined". */
  function DownloadMessage(fileName: Option<string>): (r: string)
    ensures StartsWith(r, "Download would start for: ")
    ensures fileName.Some? ==> r[|"Download would start for: "|..] == fileName.value
  {
    "Download would start for: " + fileName.GetOr("undefined")
  }
}
