/** The dashboard's claim list (`DashboardComponent`): conjunctive client-side
    filters, page slicing, the filter-form life cycle, the status colour and the
    title truncation used in the PDF rows. */
module Dashboard {
  import opened Common
  import opened Strings
  import opened Seqs
  import opened ClaimModel

  /** The filter form. A text control that is empty or null (after `reset()`) is
      falsy and adds no constraint; a date control holds a timestamp or nothing. */
  datatype FilterForm = FilterForm(
    empresa: string,
    estado: string,
    fechaInicio: Option<int>,
    fechaFin: Option<int>,
    searchText: string)

  const EmptyForm: FilterForm := FilterForm("", "", None, None, "")

  // ---------------------------------------------------------------- one test per filter

  /** `field?.toLowerCase().includes(q)`; a missing field never matches. */
  predicate FieldIncludes(field: Option<string>, q: string)
  {
    field.Some? && Contains(ToLower(field.value), q)
  }

  /** The text search: title, description or code contains the search text,
      ignoring case. */
  predicate SearchHit(c: Claim, searchText: string)
  {
    var q := ToLower(searchText);
    FieldIncludes(c.titulo, q) || FieldIncludes(c.descripcion, q) || FieldIncludes(c.codigo, q)
  }

  /** `claim.estadoActual === estado`. */
  predicate StatusHit(c: Claim, estado: string)
  {
    c.estadoActual == Some(estado)
  }

  /** `claim.clienteId?.toString().includes(empresa)`: a substring anywhere in the
      decimal form of the customer id. */
  predicate CustomerHit(c: Claim, empresa: string)
  {
    c.clienteId.Some? && Contains(IntToString(c.clienteId.value), empresa)
  }

  /** `new Date(claim.fechaCreacion) >= startDate`; an invalid date compares false. */
  predicate CreatedFrom(c: Claim, start: int)
  {
    c.fechaCreacion.Some? && c.fechaCreacion.value >= start
  }

  /** `new Date(claim.fechaCreacion) <= endDate`; an invalid date compares false. */
  predicate CreatedUntil(c: Claim, end: int)
  {
    c.fechaCreacion.Some? && c.fechaCreacion.value <= end
  }

  function SearchTest(searchText: string): Claim -> bool { c => SearchHit(c, searchText) }
  function StatusTest(estado: string): Claim -> bool { c => StatusHit(c, estado) }
  function CustomerTest(empresa: string): Claim -> bool { c => CustomerHit(c, empresa) }
  function FromTest(start: int): Claim -> bool { c => CreatedFrom(c, start) }
  function UntilTest(end: int): Claim -> bool { c => CreatedUntil(c, end) }

  /** One `if (filter) filtered = filtered.filter(test)` step. */
  function Stage(s: seq<Claim>, active: bool, test: Claim -> bool): seq<Claim>
  {
    if active then Filter(s, test) else s
  }

  /** `applyFilters`: the five stages in the source's order, each applied only when
      its form control is set. */
  function ApplyFilters(claims: seq<Claim>, f: FilterForm): (r: seq<Claim>)
    ensures |r| <= |claims|
    ensures forall i :: 0 <= i < |r| ==> r[i] in claims
  {
    var bySearch := Stage(claims, f.searchText != "", SearchTest(f.searchText));
    var byStatus := Stage(bySearch, f.estado != "", StatusTest(f.estado));
    var byCustomer := Stage(byStatus, f.empresa != "", CustomerTest(f.empresa));
    var byStart := Stage(byCustomer, f.fechaInicio.Some?, FromTest(f.fechaInicio.GetOr(0)));
    Stage(byStart, f.fechaFin.Some?, UntilTest(f.fechaFin.GetOr(0)))
  }

  /** The reference meaning of a filter form: every set control constrains the
      claim, and unset controls constrain nothing. */
  predicate Matches(f: FilterForm, c: Claim)
  {
    && (f.searchText == "" || SearchHit(c, f.searchText))
    && (f.estado == "" || StatusHit(c, f.estado))
    && (f.empresa == "" || CustomerHit(c, f.empresa))
    && (f.fechaInicio.None? || CreatedFrom(c, f.fechaInicio.value))
    && (f.fechaFin.None? || CreatedUntil(c, f.fechaFin.value))
  }

  function MatchesTest(f: FilterForm): Claim -> bool { c => Matches(f, c) }

  lemma StageIsFilter(s: seq<Claim>, active: bool, test: Claim -> bool, guarded: Claim -> bool)
    requires forall c :: guarded(c) == (!active || test(c))
    ensures Stage(s, active, test) == Filter(s, guarded)
  {
    if !active {
      FilterKeepsAll(s, guarded);
    } else {
      FilterCompose(s, test, guarded, guarded);
      FilterCompose(s, guarded, guarded, test);
      FilterIdempotent(s, guarded);
    }
  }

  /** Appending one more stage to a pipeline that is a single filter by `acc`
      gives a single filter by `acc` and the new stage's guarded test. */
  lemma StageStep(claims: seq<Claim>, s: seq<Claim>, acc: Claim -> bool,
                  active: bool, test: Claim -> bool, next: Claim -> bool)
    requires s == Filter(claims, acc)
    requires forall c :: next(c) == (acc(c) && (!active || test(c)))
    ensures Stage(s, active, test) == Filter(claims, next)
  {
    var guarded := (c: Claim) => !active || test(c);
    StageIsFilter(s, active, test, guarded);
    FilterCompose(claims, acc, guarded, next);
  }

  /** The staged pipeline is a single filter by the conjunction of the set controls. */
  lemma ApplyFiltersIsConjunction(claims: seq<Claim>, f: FilterForm)
    ensures ApplyFilters(claims, f) == Filter(claims, MatchesTest(f))
  {
    var a1 := (c: Claim) => f.searchText == "" || SearchHit(c, f.searchText);
    var a2 := (c: Claim) => a1(c) && (f.estado == "" || StatusHit(c, f.estado));
    var a3 := (c: Claim) => a2(c) && (f.empresa == "" || CustomerHit(c, f.empresa));
    var a4 := (c: Claim) => a3(c) && (f.fechaInicio.None? || CreatedFrom(c, f.fechaInicio.value));

    var s1 := Stage(claims, f.searchText != "", SearchTest(f.searchText));
    StageIsFilter(claims, f.searchText != "", SearchTest(f.searchText), a1);
    var s2 := Stage(s1, f.estado != "", StatusTest(f.estado));
    StageStep(claims, s1, a1, f.estado != "", StatusTest(f.estado), a2);
    var s3 := Stage(s2, f.empresa != "", CustomerTest(f.empresa));
    StageStep(claims, s2, a2, f.empresa != "", CustomerTest(f.empresa), a3);
    var s4 := Stage(s3, f.fechaInicio.Some?, FromTest(f.fechaInicio.GetOr(0)));
    StageStep(claims, s3, a3, f.fechaInicio.Some?, FromTest(f.fechaInicio.GetOr(0)), a4);
    StageStep(claims, s4, a4, f.fechaFin.Some?, UntilTest(f.fechaFin.GetOr(0)), MatchesTest(f));
  }

  /** A claim survives the filters exactly when it is in the list and matches every
      set control; the survivors keep their relative order. */
  lemma FilteredIffMatches(claims: seq<Claim>, f: FilterForm)
    ensures forall c :: c in ApplyFilters(claims, f) <==> c in claims && Matches(f, c)
    ensures SubseqOf(ApplyFilters(claims, f), claims)
  {
    ApplyFiltersIsConjunction(claims, f);
    FilterIsSubseq(claims, MatchesTest(f));
    var r := ApplyFilters(claims, f);
    forall c ensures c in r <==> c in claims && Matches(f, c) {
      if c in r {
        var i :| 0 <= i < |r| && r[i] == c;
      }
      if c in claims && Matches(f, c) {
        var i :| 0 <= i < |claims| && claims[i] == c;
      }
    }
  }

  /** An empty form returns the list unchanged. */
  lemma EmptyFormKeepsAll(claims: seq<Claim>)
    ensures ApplyFilters(claims, EmptyForm) == claims
  {
  }

  /** Filtering the filtered list again with the same form changes nothing. */
  lemma ApplyFiltersIdempotent(claims: seq<Claim>, f: FilterForm)
    ensures ApplyFilters(ApplyFilters(claims, f), f) == ApplyFilters(claims, f)
  {
    ApplyFiltersIsConjunction(claims, f);
    ApplyFiltersIsConjunction(ApplyFilters(claims, f), f);
    FilterIdempotent(claims, MatchesTest(f));
  }

  /** The customer filter matches inside the id, not only at its start. */
  lemma CustomerFilterMatchesInside()
    ensures CustomerHit(Claim(1, None, None, None, Some(12345), None, None, None), "234")
  {
    var s := IntToString(12345);
    assert s == "12345";
    assert OccursAt(s, "234", 1);
    ContainsIff(s, "234");
  }

  /** Both date bounds are inclusive. */
  lemma DateBoundsInclusive(c: Claim, t: int)
    requires c.fechaCreacion == Some(t)
    ensures Matches(FilterForm("", "", Some(t), Some(t), ""), c)
  {
  }

  // ---------------------------------------------------------------- pagination

  /** `updatePagination`: `filtered.slice(pageIndex * pageSize, pageIndex * pageSize + pageSize)`. */
  function Paginate<T>(filtered: seq<T>, pageIndex: nat, pageSize: nat): (r: seq<T>)
    ensures |r| <= pageSize
    ensures pageIndex * pageSize >= |filtered| ==> r == []
    ensures pageIndex * pageSize < |filtered| ==>
      |r| == if pageSize < |filtered| - pageIndex * pageSize then pageSize else |filtered| - pageIndex * pageSize
    ensures forall i :: 0 <= i < |r| ==> pageIndex * pageSize + i < |filtered| && r[i] == filtered[pageIndex * pageSize + i]
  {
    var start := pageIndex * pageSize;
    var end := start + pageSize;
    if start >= |filtered| then []
    else filtered[start..if end < |filtered| then end else |filtered|]
  }

  /** Every filtered claim is shown on exactly the page its index falls in. */
  lemma EveryClaimOnItsPage<T>(filtered: seq<T>, pageSize: nat, i: nat)
    requires pageSize > 0 && i < |filtered|
    ensures var page := Paginate(filtered, i / pageSize, pageSize);
      i % pageSize < |page| && page[i % pageSize] == filtered[i]
  {
    var p := i / pageSize;
    assert p * pageSize + i % pageSize == i;
    assert p * pageSize <= i;
  }

  // ---------------------------------------------------------------- the component's state

  datatype DashboardState = DashboardState(
    claims: seq<Claim>,
    form: FilterForm,
    pageIndex: nat,
    pageSize: nat,
    filteredClaims: seq<Claim>,
    pagedClaims: seq<Claim>,
    totalItems: nat,
    error: Option<string>)

  /** What `applyFilters` followed by `updatePagination` establishes. */
  predicate Consistent(st: DashboardState)
  {
    && st.filteredClaims == ApplyFilters(st.claims, st.form)
    && st.totalItems == |st.filteredClaims|
    && st.pagedClaims == Paginate(st.filteredClaims, st.pageIndex, st.pageSize)
  }

  /** The component as constructed: page size 10, first page, empty lists. */
  function Initial(): (st: DashboardState)
    ensures Consistent(st) && st.pageIndex == 0 && st.pageSize == 10
  {
    DashboardState([], EmptyForm, 0, 10, [], [], 0, None)
  }

  /** `applyFilters(); updatePagination();` */
  function Refresh(st: DashboardState): (r: DashboardState)
    ensures Consistent(r)
    ensures r.claims == st.claims && r.form == st.form && r.error == st.error
    ensures r.pageIndex == st.pageIndex && r.pageSize == st.pageSize
    ensures forall c :: c in r.filteredClaims <==> c in st.claims && Matches(st.form, c)
  {
    FilteredIffMatches(st.claims, st.form);
    var filtered := ApplyFilters(st.claims, st.form);
    st.(filteredClaims := filtered,
        totalItems := |filtered|,
        pagedClaims := Paginate(filtered, st.pageIndex, st.pageSize))
  }

  /** The success branch of `loadClaims`. */
  function OnClaimsLoaded(st: DashboardState, claims: seq<Claim>): (r: DashboardState)
    ensures Consistent(r)
    ensures r.claims == claims && r.form == st.form && r.pageIndex == st.pageIndex && r.error == None
    ensures forall c :: c in r.filteredClaims <==> c in claims && Matches(st.form, c)
  {
    FilteredIffMatches(claims, st.form);
    Refresh(st.(claims := claims, error := None))
  }

  /** The error branch of `loadClaims`: every list is emptied and the message is kept. */
  function OnLoadError(st: DashboardState, message: string): (r: DashboardState)
    ensures Consistent(r)
    ensures r.claims == [] && r.pagedClaims == [] && r.totalItems == 0
    ensures r.error == Some("Error loading claims: " + (if message == "" then "Unknown error" else message))
  {
    st.(claims := [], filteredClaims := [], pagedClaims := [], totalItems := 0,
        error := Some("Error loading claims: " + (if message == "" then "Unknown error" else message)))
  }

  /** The filter watcher: re-filter and re-paginate with the new form values; the
      page index is left as it was. */
  function OnFilterChange(st: DashboardState, form: FilterForm): (r: DashboardState)
    ensures Consistent(r)
    ensures r.form == form && r.claims == st.claims
    ensures r.pageIndex == st.pageIndex && r.pageSize == st.pageSize
  {
    Refresh(st.(form := form))
  }

  /** `onPageChange`: only the page slice is recomputed. */
  function OnPageChange(st: DashboardState, pageIndex: nat, pageSize: nat): (r: DashboardState)
    ensures Consistent(st) ==> Consistent(r)
    ensures r.filteredClaims == st.filteredClaims && r.totalItems == st.totalItems
    ensures r.pageIndex == pageIndex && r.pageSize == pageSize
  {
    st.(pageIndex := pageIndex, pageSize := pageSize,
        pagedClaims := Paginate(st.filteredClaims, pageIndex, pageSize))
  }

  /** `clearFilters`: reset the form, go back to the first page, show everything. */
  function ClearFilters(st: DashboardState): (r: DashboardState)
    ensures Consistent(r)
    ensures r.form == EmptyForm && r.pageIndex == 0
    ensures r.filteredClaims == st.claims && r.totalItems == |st.claims|
  {
    Refresh(st.(form := EmptyForm, pageIndex := 0))
  }

  /** The watcher firing after `clearFilters` (the form's reset is itself a value
      change) leaves the cleared state as it is. */
  lemma ClearThenWatcherStable(st: DashboardState)
    ensures OnFilterChange(ClearFilters(st), EmptyForm) == ClearFilters(st)
  {
  }

  /** Because the watcher keeps the page index, narrowing the filter while on a
      later page can leave an empty page even though claims match. */
  lemma NarrowingCanEmptyThePage(c: Claim)
    requires c.estadoActual == Some(Ingresado)
    ensures var st := OnFilterChange(OnPageChange(OnClaimsLoaded(Initial(), [c, c, c]), 1, 2),
                                     EmptyForm.(estado := Ingresado));
      st.totalItems == 3 && st.pagedClaims == [c]
    ensures var st := OnFilterChange(OnPageChange(OnClaimsLoaded(Initial(), [c]), 1, 1),
                                     EmptyForm.(estado := Ingresado));
      st.totalItems == 1 && st.pagedClaims == [] && st.pageIndex == 1
  {
    var f := EmptyForm.(estado := Ingresado);
    var three, one := [c, c, c], [c];
    FilterKeepsAll(three, StatusTest(Ingresado));
    FilterKeepsAll(one, StatusTest(Ingresado));
    assert ApplyFilters(three, f) == three && ApplyFilters(one, f) == one;
    EmptyFormKeepsAll(three);
    EmptyFormKeepsAll(one);
    assert Paginate(three, 1, 2) == [c];
    assert Paginate(one, 1, 1) == [];
  }

  // ---------------------------------------------------------------- presentation

  /** `getStatusColor`: total over strings, neutral for anything unlisted. */
  function GetStatusColor(status: string): (r: string)
    ensures r == "primary" <==> status == Ingresado || status == Resuelto
    ensures r == "accent" <==> status == EnProceso
    ensures r == "warn" <==> status == Rechazado
    ensures r == "" <==> status !in [Ingresado, EnProceso, Resuelto, Rechazado]
  {
    if status == Ingresado then "primary"
    else if status == EnProceso then "accent"
    else if status == Resuelto then "primary"
    else if status == Cerrado then ""
    else if status == Rechazado then "warn"
    else ""
  }

  /** `truncateText`: missing or empty text gives '', text of at most `maxLength`
      UTF-16 code units is kept, longer text is cut to the characters that fit in
      `maxLength` code units, followed by "...". */
  function TruncateText(text: Option<string>, maxLength: nat): (r: string)
    ensures text.None? ==> r == ""
    ensures text.Some? && Utf16Length(text.value) <= maxLength ==> r == text.value
    ensures text.Some? && Utf16Length(text.value) > maxLength ==>
      exists k :: 0 <= k < |text.value| && r == text.value[..k] + "..."
        && Utf16Length(text.value[..k]) <= maxLength < Utf16Length(text.value[..k + 1])
  {
    match text
    case None => ""
    case Some(t) =>
      if t == "" then ""
      else if Utf16Length(t) > maxLength then
        var k := FitPrefix(t, maxLength);
        assert t[..|t|] == t;
        t[..k] + "..."
      else t
  }

  /** Text within the Basic Multilingual Plane is cut after exactly `maxLength`
      characters, as `substring(0, maxLength)` does. */
  lemma TruncateInBmp(t: string, maxLength: nat)
    requires forall i :: 0 <= i < |t| ==> InBmp(t[i])
    requires |t| > maxLength
    ensures TruncateText(Some(t), maxLength) == t[..maxLength] + "..."
  {
    FitPrefixInBmp(t, maxLength);
  }
}
