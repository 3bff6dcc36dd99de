# Claims app: a Dafny model

A model of a small customer-claims system. It has a Spring backend that stores
claims ("reclamos") with a status history and attachments, and an Angular front
end with a dashboard, a summary page, a status chart, a new-claim form and a
claim detail page. The model covers the logic of both halves as pure functions
over immutable datatypes and proves what each part promises.

| file | module | models |
|---|---|---|
| common.dfy | Common | `Option` and `Result` |
| strings.dfy | Strings | Java `trim`/blank, ASCII case mapping, `includes`, `startsWith`, decimal rendering of numbers, JavaScript's UTF-16 `length` |
| seqs.dfy | Seqs | filter, map, stable sort, take, distinct, counting, and the facts about them |
| tally.dfy | Tally | a JavaScript `Map` filled with seeded keys and then incremented per element |
| js_parse.dfy | JsParse | `parseInt` with no radix |
| status_enum.dfy | StatusEnum | `EstadoReclamoEnum`: seven constants, their names and descriptions |
| status_converter.dfy | StatusConverter | `EstadoReclamoConverter`: the status column codec |
| claim_model.dfy | ClaimModel | the front end's claim record and `ClaimStatusEnum` |
| dashboard.dfy | Dashboard | filtering, paging and the state changes of the dashboard |
| summary.dfy | Summary | `calculateStats` and the summary page's helpers |
| claims_chart.dfy | ClaimsChart | the per-status bar chart |
| new_claim.dfy | NewClaim | the new-claim form: validators, file picking, error texts, submit |
| claim_detail.dfy | ClaimDetail | the detail page: route id, status form, helpers |
| claim_requests.dfy | ClaimRequests | the backend request bodies and their Bean Validation constraints |
| claim_service.dfy | ClaimService | `ClaimService` over an abstract store of claims |
| claim_controller.dfy | ClaimController | `ClaimController`: dispatch and validation gating |
| form_to_server.dfy | FormToServer | how the form's request is bound to the backend's record (`customerId` is a Java `Long`) and then meets its validator |

Modelling choices:

- The backend store is a map from claim id to a claim. Each claim holds its history and attachment sequences. Ids come from three counters that start at 1. Timestamps are integers. Each call takes one `now`, so the claim and its first history entry share a creation time.
- Repository queries are inputs. `ListClaims` takes the claims a query returned, in the order it returned them. `findWithFilters` is called by the service but not declared in `ReclamoRepository`, so both list queries are arbitrary sequences here.
- A column declared `nullable = false` that would receive `null` makes the save fail. That is the `NotNullViolation` error. The claim code column is also `unique`, so a new claim whose code some stored claim already has fails with `DuplicateCode`; the store invariant records that codes are distinct. When a request breaks both, the NOT NULL violation is the one reported. Because the service methods are `@Transactional`, the store is unchanged after any failure.
- A history row holds its status as the converter decodes the stored column. A blank column decodes to `null` (`None`), which the current-status lookup reports as `INGRESADO`. The service itself only writes present statuses.
- A Dafny `char` is a Unicode code point, while JavaScript's `length` and `substring` count UTF-16 code units. The form's length validators and the dashboard's `truncateText` are measured with `Utf16Length`, where a character outside the Basic Multilingual Plane counts twice.
- The controller has no exception handler of its own. A service exception therefore comes back as `Raised` carrying that exception. A body that fails `@Valid` is answered 400 before the service is called.
- The UUID behind a claim code is a parameter. Only the first eight characters matter.
- The current status of a claim is that of the first history entry with the greatest creation time. This follows `Stream.max`, which keeps the earlier of two equal elements. An empty history gives `INGRESADO`.
- Adding a status or an attachment leaves `fechaActualizacion` unchanged. Only the child rows are saved, so `@PreUpdate` does not fire for the claim row.
- On the front end, fields read through `?.` are `Option`s. A date that does not parse is `None`, and every comparison with it is false. `parseInt`'s NaN is `None`, which `JSON.stringify` writes as `null`.
- The `switch` arms for `ClaimStatusEnum.CREADO` and `CANCELADO` compare against `undefined`, because the enumeration has no such members. They never match a string, so they are absent from the model. The detail page's `getStatusColor` is the exception: there the `CREADO` arm does match an `undefined` status.
- The code is modelled where its tests disagree with it:
  - `ClaimServiceTest.java:132` expects "Sin estado" for a claim without history; the code gives `INGRESADO`.
  - `dashboard.component.spec.ts` expects `applyFilters` to reset the page index; the code does not.
  - The front-end specs use the missing `CREADO`/`CANCELADO` members.

## Model

| member | source | states |
|---|---|---|
| StatusEnum.ValuesEnumerateAll | api/src/main/java/com/example/api/enums/EstadoReclamoEnum.java:8-14 | `values()` lists exactly seven constants, each once, and every constant is among them |
| StatusEnum.DescripcionInjective | api/src/main/java/com/example/api/enums/EstadoReclamoEnum.java:8-24 | two constants have the same description exactly when they are the same constant, so the lookup by description is unambiguous |
| StatusEnum.NameInjective | api/src/main/java/com/example/api/enums/EstadoReclamoEnum.java:8-14 | two constants have the same name exactly when they are the same constant |
| StatusEnum.DescripcionNeverAName | api/src/main/java/com/example/api/enums/EstadoReclamoEnum.java:8-14 | no description is the name of any constant, so the description match and the name fallback never compete |
| StatusConverter.FindFirst | api/src/main/java/com/example/api/converter/EstadoReclamoConverter.java:25-29 | a found constant is among those searched and carries the tag sought; not found means no searched constant carries it |
| StatusConverter.ConvertToDatabaseColumn | api/src/main/java/com/example/api/converter/EstadoReclamoConverter.java:11-16 | null is written exactly for a null status |
| StatusConverter.ConvertToEntityAttribute | api/src/main/java/com/example/api/converter/EstadoReclamoConverter.java:19-36 | a decoded constant has the column text as its description or its name; an error carries "Unknown estado: " followed by the input |
| StatusConverter.RoundTrip | api/src/main/java/com/example/api/converter/EstadoReclamoConverter.java:11-29 | reading back what was written gives the original status, null included |
| StatusConverter.AcceptsNames | api/src/main/java/com/example/api/converter/EstadoReclamoConverter.java:31-32 | every constant name, such as "EN_PROCESO", reads as its constant |
| StatusConverter.BlankReadsAsNull | api/src/main/java/com/example/api/converter/EstadoReclamoConverter.java:20-22 | a column value made only of spaces and control characters reads as null |
| StatusConverter.RejectsIff | api/src/main/java/com/example/api/converter/EstadoReclamoConverter.java:20-35 | a non-blank value is rejected exactly when it is neither a description nor a name, and the error message names the value |
| StatusConverter.DescripcionNotBlank | api/src/main/java/com/example/api/converter/EstadoReclamoConverter.java:20 | no description is blank, so the blank check never hides a stored status |
| StatusConverter.NameNotBlank | api/src/main/java/com/example/api/converter/EstadoReclamoConverter.java:20 | no constant name is blank |
| StatusConverter.LabelsStartVisible | api/src/main/java/com/example/api/enums/EstadoReclamoEnum.java:8-14 | no description or name begins with a space |
| StatusConverter.LeadingSpaceRejected | api/src/main/java/com/example/api/converter/EstadoReclamoConverter.java:20-35 | a description preceded by a space is rejected: the blank check trims but the lookups compare exactly |
| ClaimModel.StatusValuesMatchBackend | claims-app/src/app/core/models/claim-status.model.ts:16-24 | the front-end enumeration lists exactly the backend descriptions, in the backend's order, each once |
| JsParse.ParseInt | claims-app/src/app/pages/claim-detail/claim-detail.component.ts:70 | the empty string does not parse |
| JsParse.ParseIntOfDigits | claims-app/src/app/pages/new-claim/new-claim.component.ts:142 | a string of decimal digits parses to its decimal value |
| JsParse.ParseIntOfDecimal | claims-app/src/app/pages/claim-detail/claim-detail.component.ts:70 | the decimal rendering of a natural number parses back to that number |
| Dashboard.StageIsFilter | claims-app/src/app/pages/dashboard/dashboard.component.ts:132-163 | a guarded filter stage is one filter by "the guard is off, or the test holds" |
| Dashboard.StageStep | claims-app/src/app/pages/dashboard/dashboard.component.ts:132-163 | adding one stage to a pipeline that is a single filter gives a single filter by the conjunction |
| Dashboard.ApplyFilters | claims-app/src/app/pages/dashboard/dashboard.component.ts:128-167 | a sub-list of the loaded claims, never longer; which claims it keeps is stated by Dashboard.ApplyFiltersIsConjunction and Dashboard.FilteredIffMatches |
| Dashboard.ApplyFiltersIsConjunction | claims-app/src/app/pages/dashboard/dashboard.component.ts:128-167 | the five staged filters equal one filter by the reference predicate: every control that is set constrains the claim |
| Dashboard.FilteredIffMatches | claims-app/src/app/pages/dashboard/dashboard.component.ts:128-167 | a claim survives exactly when it is in the list and matches the form; the result is a subsequence of the list, in order |
| Dashboard.EmptyFormKeepsAll | claims-app/src/app/pages/dashboard/dashboard.component.ts:128-167 | an empty form returns the list unchanged |
| Dashboard.ApplyFiltersIdempotent | claims-app/src/app/pages/dashboard/dashboard.component.ts:128-167 | filtering the filtered list again with the same form changes nothing |
| Dashboard.CustomerFilterMatchesInside | claims-app/src/app/pages/dashboard/dashboard.component.ts:145-149 | the customer filter matches digits inside the id ("234" matches 12345), not only at its start |
| Dashboard.DateBoundsInclusive | claims-app/src/app/pages/dashboard/dashboard.component.ts:151-163 | a claim created exactly at both bounds passes both date filters |
| Dashboard.Paginate | claims-app/src/app/pages/dashboard/dashboard.component.ts:169-173 | the page holds at most a page's worth of claims, in order, from the page's offset; a page past the end is empty |
| Dashboard.EveryClaimOnItsPage | claims-app/src/app/pages/dashboard/dashboard.component.ts:169-173 | every filtered claim appears on the page its index falls in, at the matching position |
| Dashboard.Refresh | claims-app/src/app/pages/dashboard/dashboard.component.ts:185-186 | `applyFilters(); updatePagination();` leaves the state consistent, keeps the claims, form, page index, page size and error, and filters to exactly the claims that match the form |
| Dashboard.Initial | claims-app/src/app/pages/dashboard/dashboard.component.ts:59-65 | the constructed component is consistent, on page 0 with page size 10 |
| Dashboard.OnClaimsLoaded | claims-app/src/app/pages/dashboard/dashboard.component.ts:108-113 | after a load the totals and page agree with the filter, which keeps exactly the loaded claims that match the form |
| Dashboard.OnLoadError | claims-app/src/app/pages/dashboard/dashboard.component.ts:114-122 | a failed load empties every list and reports the error's message, or "Unknown error" when it has none |
| Dashboard.OnFilterChange | claims-app/src/app/pages/dashboard/dashboard.component.ts:95-98 | the watcher re-filters and re-pages with the new form but keeps the page index and size |
| Dashboard.OnPageChange | claims-app/src/app/pages/dashboard/dashboard.component.ts:176-180 | a page change keeps the filtered list and total and preserves consistency |
| Dashboard.ClearFilters | claims-app/src/app/pages/dashboard/dashboard.component.ts:182-187 | clearing restores the full list, the empty form and page 0 |
| Dashboard.ClearThenWatcherStable | claims-app/src/app/pages/dashboard/dashboard.component.ts:182-187 | the watcher firing on the reset form after clearing changes nothing |
| Dashboard.NarrowingCanEmptyThePage | claims-app/src/app/pages/dashboard/dashboard.component.ts:95-98 | narrowing the filter while on a later page can leave an empty page although claims match |
| Dashboard.GetStatusColor | claims-app/src/app/pages/dashboard/dashboard.component.ts:193-202 | "primary" exactly for Ingresado and Resuelto, "accent" exactly for En Proceso, "warn" exactly for Rechazado, "" for every other string |
| Dashboard.TruncateText | claims-app/src/app/pages/dashboard/dashboard.component.ts:278-281 | missing text gives ""; text of at most `maxLength` UTF-16 code units is kept; longer text becomes the longest prefix that fits in `maxLength` code units, followed by "..." |
| Dashboard.TruncateInBmp | claims-app/src/app/pages/dashboard/dashboard.component.ts:280 | for text without supplementary characters the cut keeps exactly the first `maxLength` characters, as `substring(0, maxLength)` does |
| Summary.StatusTallyCounts | claims-app/src/app/pages/summary/summary.component.ts:82 | the per-status tally is the number of claims whose status is exactly that value |
| Summary.TallyAll | claims-app/src/app/pages/summary/summary.component.ts:80-83 | one entry per status, in order, each counting the claims with that status |
| Summary.SumOfTallies | claims-app/src/app/pages/summary/summary.component.ts:80-83 | the counts add up to the number of claims whose status is one of those listed |
| Summary.ByStatusSumBound | claims-app/src/app/pages/summary/summary.component.ts:80-83 | the status counts add up to at most the number of claims, with equality exactly when every claim has an enumeration status |
| Summary.CalculateStats | claims-app/src/app/pages/summary/summary.component.ts:76-126 | the total is the number of claims; the in-place sort leaves a permutation of the caller's claims |
| Summary.RecentClaimsAreNewest | claims-app/src/app/pages/summary/summary.component.ts:86-88 | at most five claims, newest first, drawn from the input, none older than a claim left out |
| Summary.StatusCountsOfTheClaims | claims-app/src/app/pages/summary/summary.component.ts:80-83 | the counts by status are counts over the caller's claims, whatever order the sort left them in |
| Summary.TopCustomers | claims-app/src/app/pages/summary/summary.component.ts:109-117 | at most five entries, most claims first; the full characterisation is Summary.TopCustomersFacts |
| Summary.TopCustomersFacts | claims-app/src/app/pages/summary/summary.component.ts:109-117 | up to five distinct customers, most claims first, each with its true claim count, and no customer left out has more claims than one listed |
| Summary.TopCountsOfTheClaims | claims-app/src/app/pages/summary/summary.component.ts:109-117 | each top customer's count is its number of claims in the caller's list |
| Summary.AverageResolutionDays | claims-app/src/app/pages/summary/summary.component.ts:91-106 | 0 when no claim is resolved or closed; undefined (NaN) when a resolved claim lacks a date |
| Summary.UniformResolution | claims-app/src/app/pages/summary/summary.component.ts:96-106 | when every resolved claim took the same number of days, the average is that number |
| Summary.GetPercentage | claims-app/src/app/pages/summary/summary.component.ts:162-164 | 0 when the total is not positive, otherwise the exact percentage rounded half up |
| Summary.PercentageInRange | claims-app/src/app/pages/summary/summary.component.ts:162-164 | a part of a positive total is between 0 and 100 percent, and the whole is exactly 100 |
| Summary.GetStatusColor | claims-app/src/app/pages/summary/summary.component.ts:140-149 | the default colour is given exactly to strings other than En Proceso, Resuelto and Cerrado |
| Summary.GetStatusIcon | claims-app/src/app/pages/summary/summary.component.ts:151-160 | the "help" icon is given exactly to strings other than En Proceso, Resuelto and Cerrado |
| Summary.GetStatusCount | claims-app/src/app/pages/summary/summary.component.ts:180-182 | 0 before the statistics exist and for a status without an entry |
| Summary.GenerateChartData | claims-app/src/app/pages/summary/summary.component.ts:128-138 | labels, values and colours line up one to one with the status counts |
| Tally.KeysStep | claims-app/src/app/pages/claims-chart/claims-chart.ts:106-109 | counting one more claim adds its status as a new key exactly when the key is new |
| Tally.CountInto | claims-app/src/app/pages/claims-chart/claims-chart.ts:100-109 | after the loop the keys are the seeds then the new keys in first-seen order, and each value counts the claims under its key |
| ClaimsChart.KnownLabelsDistinct | claims-app/src/app/pages/claims-chart/claims-chart.ts:101-103 | the seven seeded labels are distinct |
| ClaimsChart.ProcessClaimsData | claims-app/src/app/pages/claims-chart/claims-chart.ts:97-114 | every status starts as a label in declaration order; each claim's status is a label; each bar counts its label's claims; the bars add up to the number of claims |
| ClaimsChart.NoExtraBarsForKnownStatuses | claims-app/src/app/pages/claims-chart/claims-chart.ts:106-112 | when every claim has an enumeration status, the labels are exactly the seven statuses |
| ClaimsChart.UnknownStatusGetsABar | claims-app/src/app/pages/claims-chart/claims-chart.ts:106-112 | a status outside the enumeration gets a label after the seven seeded ones |
| ClaimsChart.StartLoading | claims-app/src/app/pages/claims-chart/claims-chart.ts:80-82 | loading clears the error and keeps the bars shown |
| ClaimsChart.OnLoadError | claims-app/src/app/pages/claims-chart/claims-chart.ts:89-93 | a failed load shows the fixed message and keeps the bars |
| ClaimsChart.OnClaimsLoaded | claims-app/src/app/pages/claims-chart/claims-chart.ts:85-88 | a load replaces the bars by the counts of the loaded claims, which add up to their number |
| NewClaim.Validate | claims-app/src/app/pages/new-claim/new-claim.component.ts:50-54 | each Angular validator reports an error exactly in its failing case: required for "", the length bounds, in UTF-16 code units, only for non-empty values, the pattern for non-digits |
| NewClaim.FieldValidIff | claims-app/src/app/pages/new-claim/new-claim.component.ts:50-54 | a title is valid exactly with 3 to 100 UTF-16 code units, a description with 10 to 1000, a customer id when it is all digits and not empty |
| NewClaim.TwoEmojiTitleValid | claims-app/src/app/pages/new-claim/new-claim.component.ts:51 | a title of two emoji, two characters but four code units, passes `minLength(3)` |
| NewClaim.FieldNamed | claims-app/src/app/pages/new-claim/new-claim.component.ts:117 | exactly the three control names name a control |
| NewClaim.FieldNameRoundTrip | claims-app/src/app/pages/new-claim/new-claim.component.ts:50-54 | looking a control up by its own name finds it |
| NewClaim.ErrorText | claims-app/src/app/pages/new-claim/new-claim.component.ts:126-131 | the text is empty exactly when no error is present, and otherwise starts with the field's label |
| NewClaim.GetFieldError | claims-app/src/app/pages/new-claim/new-claim.component.ts:116-132 | a message appears exactly when the named field exists, is invalid and is touched, and it names the field's label |
| NewClaim.EmptyFieldIsRequired | claims-app/src/app/pages/new-claim/new-claim.component.ts:126 | an empty touched field reports that it is required, never a length or format error |
| NewClaim.ShortTitleMessage | claims-app/src/app/pages/new-claim/new-claim.component.ts:127 | a non-empty title under three code units reports the required length 3 |
| NewClaim.LetterInCustomerIdMessage | claims-app/src/app/pages/new-claim/new-claim.component.ts:129 | a customer id holding a letter is reported as not a valid number |
| NewClaim.Rejection | claims-app/src/app/pages/new-claim/new-claim.component.ts:64-75 | a file is kept exactly when its type is allowed and its size is within 10 MiB; the type is checked before the size |
| NewClaim.OnFileSelected | claims-app/src/app/pages/new-claim/new-claim.component.ts:57-93 | the kept files are the old ones followed by the accepted ones in order; a message appears exactly when a file was refused, and it joins one reason per refused file with ", " |
| NewClaim.SizeLimitInclusive | claims-app/src/app/pages/new-claim/new-claim.component.ts:41 | a file of exactly 10 MiB is accepted and one byte more is refused |
| NewClaim.RemoveFile | claims-app/src/app/pages/new-claim/new-claim.component.ts:95-99 | `splice(index, 1)`: a valid index removes that file only, a negative one counts from the end, one past the end removes nothing |
| NewClaim.RemoveFileKeepsOthers | claims-app/src/app/pages/new-claim/new-claim.component.ts:95-99 | the removed file and the rest together are the original files |
| NewClaim.GetFileIcon | claims-app/src/app/pages/new-claim/new-claim.component.ts:101-106 | images get "image"; "application/pdf" gets "picture_as_pdf"; another type mentioning "word" gets "description"; the generic icon is given exactly to types that are not images, not PDF, and do not mention "word" |
| NewClaim.WordDocumentIcon | claims-app/src/app/pages/new-claim/new-claim.component.ts:104 | a non-image, non-PDF type mentioning "word" gets "description" |
| NewClaim.PlainTextIcon | claims-app/src/app/pages/new-claim/new-claim.component.ts:101-106 | plain text, an allowed type, gets the generic icon |
| NewClaim.UploadsFor | claims-app/src/app/pages/new-claim/new-claim.component.ts:149-151 | one upload per selected file, in order, all to the created claim |
| NewClaim.OnSubmit | claims-app/src/app/pages/new-claim/new-claim.component.ts:134-182 | an invalid form sends nothing and marks every field touched; a valid one sends the parsed request; a created claim is always opened, and a failed upload only changes the success text |
| NewClaim.InvalidSubmitShowsErrors | claims-app/src/app/pages/new-claim/new-claim.component.ts:175-181 | after an invalid submit every invalid field shows an error |
| ClaimDetail.ShouldLoad | claims-app/src/app/pages/claim-detail/claim-detail.component.ts:70-71 | `if (id)` on `parseInt` of the route id: a number other than 0 (NaN and 0 are falsy); characterised by ClaimDetail.ShouldLoadDecimal and ClaimDetail.WordsDoNotLoad |
| ClaimDetail.ShouldLoadDecimal | claims-app/src/app/pages/claim-detail/claim-detail.component.ts:69-75 | a decimal route id loads exactly when it is positive |
| ClaimDetail.WordsDoNotLoad | claims-app/src/app/pages/claim-detail/claim-detail.component.ts:69-75 | "abc", "" and "0" do not load |
| ClaimDetail.Initial | claims-app/src/app/pages/claim-detail/claim-detail.component.ts:46-65 | the constructed page has id 0, no claim and a hidden status form |
| ClaimDetail.StartLoad | claims-app/src/app/pages/claim-detail/claim-detail.component.ts:78-80 | loading clears the error and keeps the id and the claim shown |
| ClaimDetail.OnRouteParams | claims-app/src/app/pages/claim-detail/claim-detail.component.ts:69-75 | a usable id is stored and loading starts; any other parameter changes nothing |
| ClaimDetail.OnClaimLoaded | claims-app/src/app/pages/claim-detail/claim-detail.component.ts:83-86 | the loaded claim is shown and loading stops |
| ClaimDetail.OnClaimLoadFailed | claims-app/src/app/pages/claim-detail/claim-detail.component.ts:87-90 | a failed load shows the fixed message and keeps the claim shown |
| ClaimDetail.ToggleStatusForm | claims-app/src/app/pages/claim-detail/claim-detail.component.ts:105-110 | visibility flips; the form is reset only when it becomes visible |
| ClaimDetail.ToggleTwice | claims-app/src/app/pages/claim-detail/claim-detail.component.ts:105-110 | two toggles from hidden return to hidden with an empty form |
| ClaimDetail.OnStatusUpdate | claims-app/src/app/pages/claim-detail/claim-detail.component.ts:112-134 | nothing is sent without a status; otherwise the status is sent with empty notes dropped; success hides the form and reloads; either way the busy flag is cleared |
| ClaimDetail.FreshFormSendsNothing | claims-app/src/app/pages/claim-detail/claim-detail.component.ts:62-65 | right after opening the form no update can be sent |
| ClaimDetail.GetStatusColor | claims-app/src/app/pages/claim-detail/claim-detail.component.ts:94-103 | "primary" exactly for Resuelto or a missing status, "accent" exactly for En Proceso, never "warn" |
| ClaimDetail.IngresadoIsPlainHere | claims-app/src/app/pages/claim-detail/claim-detail.component.ts:94-103 | a newly entered claim gets no colour on this page |
| ClaimDetail.GetFileIcon | claims-app/src/app/pages/claim-detail/claim-detail.component.ts:142-147 | a missing type gets the generic icon; a present one gets the new-claim page's icon |
| ClaimDetail.DownloadMessage | claims-app/src/app/pages/claim-detail/claim-detail.component.ts:136-140 | the message names the file after a fixed prefix |
| ClaimRequests.CreateViolations | api/src/main/java/com/example/api/dto/CreateClaimRequest.java:7-14 | each constraint message is reported exactly when its field is blank or missing, and no other message is |
| ClaimRequests.ValidCreateIff | api/src/main/java/com/example/api/dto/CreateClaimRequest.java:7-14 | a request is valid exactly when title and description are not blank and the customer id is present; there are no length bounds |
| ClaimRequests.EmptyFieldsRejected | api/src/test/java/com/example/api/controller/ClaimControllerTest.java:111-153 | an empty title, an empty description and a null customer id are each rejected |
| ClaimRequests.StatusViolations | api/src/main/java/com/example/api/dto/ClaimStatusRequest.java:10-11 | a status request is rejected exactly when it has no status, and then only for that reason |
| ClaimService.LatestFrom | api/src/main/java/com/example/api/service/ClaimService.java:83-84 | the reduction ends on the first entry with the greatest creation time |
| ClaimService.ShownStatus | api/src/main/java/com/example/api/service/ClaimService.java:85-86 | `.map(getEstado).orElse(INGRESADO)`: a present status is shown as itself, a `null` one as `INGRESADO` |
| ClaimService.CurrentStatus | api/src/main/java/com/example/api/service/ClaimService.java:83-86 | `INGRESADO` for an empty history; otherwise the status of the first entry with the greatest creation time, or `INGRESADO` when that status is `null` |
| ClaimService.BlankLatestShowsIngresado | api/src/main/java/com/example/api/service/ClaimService.java:149-152 | a latest entry whose status column is blank, which the converter reads as `null`, shows as `INGRESADO` |
| ClaimService.SingleEntryIsCurrent | api/src/main/java/com/example/api/service/ClaimService.java:149-152 | a history of one entry shows that entry's status, or `INGRESADO` if it is `null` |
| ClaimService.LaterEntryBecomesCurrent | api/src/main/java/com/example/api/service/ClaimService.java:149-152 | an entry stamped after every other decides the current status |
| ClaimService.EarlierOrTiedEntryKeepsCurrent | api/src/main/java/com/example/api/service/ClaimService.java:149-152 | an entry stamped no later than the current one, ties included, does not displace it |
| ClaimService.EmptyStore | api/src/main/java/com/example/api/entity/Reclamo.java:20-22 | the fresh store holds no claims and satisfies the store invariant |
| ClaimService.NotFoundMessageNamesId | api/src/main/java/com/example/api/exception/ClaimNotFoundException.java:8-10 | different ids give different not-found messages |
| ClaimService.ListClaims | api/src/main/java/com/example/api/service/ClaimService.java:81-98 | one response per claim found, in order, copying id, title, description, customer and dates, with the current status |
| ClaimService.GetClaimDetailsById | api/src/main/java/com/example/api/service/ClaimService.java:125-165 | fails exactly for an unknown id, with the not-found message; otherwise copies the claim and lists its history and attachments in length and order |
| ClaimService.ListAndDetailAgree | api/src/main/java/com/example/api/service/ClaimService.java:105-159 | the list and detail views of a claim report the same status and fields |
| ClaimService.ClaimCode | api/src/main/java/com/example/api/service/ClaimService.java:47 | 12 characters starting "CLM-", with no lower-case letter after the prefix |
| ClaimService.CodeOfUuid | api/src/main/java/com/example/api/service/ClaimService.java:47 | a UUID's lower-case hexadecimal prefix becomes upper-case hexadecimal |
| ClaimService.CreateClaim | api/src/main/java/com/example/api/service/ClaimService.java:45-75 | fails, saving nothing, exactly when a NOT NULL column would get null (`NotNullViolation`) or the generated code is already stored (`DuplicateCode`); otherwise adds one claim under a fresh id with its code, a single initial INGRESADO entry and no attachments, and echoes the request |
| ClaimService.CreateKeepsValid | api/src/main/java/com/example/api/entity/Reclamo.java:20-25 | creating keeps the store invariant, distinct codes included, and uses an id not yet taken |
| ClaimService.ValidRequestIsCreated | api/src/main/java/com/example/api/service/ClaimService.java:45-75 | a request that passed validation is created exactly when its code is not already stored |
| ClaimService.CreatedClaimReadsBack | api/src/main/java/com/example/api/service/ClaimService.java:45-75 | reading a new claim back gives INGRESADO, the initial note and the request's fields |
| ClaimService.AddStatusToClaim | api/src/main/java/com/example/api/service/ClaimService.java:167-180 | an unknown claim fails first with the not-found message; a missing status fails; otherwise exactly one entry with the request's status, notes and e-mail is appended and nothing else changes |
| ClaimService.AddStatusKeepsValid | api/src/main/java/com/example/api/service/ClaimService.java:167-180 | appending a status keeps the store invariant |
| ClaimService.AddedStatusBecomesCurrent | api/src/main/java/com/example/api/service/ClaimService.java:167-180 | a status added later than every earlier entry is what the detail view then reports |
| ClaimService.TiedStatusDoesNotChangeCurrent | api/src/main/java/com/example/api/service/ClaimService.java:149-152 | a status added at the same instant as the current one is not reported |
| ClaimService.UploadPath | api/src/main/java/com/example/api/service/ClaimService.java:191-192 | the path is "/uploads/", then the claim id in decimal, then "/", then the file name |
| ClaimService.UploadPathInjective | api/src/main/java/com/example/api/service/ClaimService.java:192 | the same file name on two different claims gets two different paths |
| ClaimService.UploadPathOfClaimOne | api/src/test/java/com/example/api/service/ClaimServiceTest.java:215 | "document.pdf" on claim 1 is stored at "/uploads/1/document.pdf" |
| ClaimService.AddAttachmentToClaim | api/src/main/java/com/example/api/service/ClaimService.java:182-203 | an unknown claim fails first, then an empty file with "File cannot be empty", then a missing name; otherwise exactly one attachment is appended and nothing else changes |
| ClaimService.AddAttachmentKeepsValid | api/src/main/java/com/example/api/service/ClaimService.java:182-203 | attaching keeps the store invariant |
| ClaimService.UploadedFileReadsBack | api/src/main/java/com/example/api/service/ClaimService.java:139-147 | an uploaded file shows up last among the claim's attachments with its name, type and size |
| ClaimController.UsesFilteredQuery | api/src/main/java/com/example/api/controller/ClaimController.java:56 | the filtered query is used exactly when a status is given or the search text holds a character above U+0020 |
| ClaimController.GetAllClaims | api/src/main/java/com/example/api/controller/ClaimController.java:50-63 | always 200; the filtered result is listed when a status or a visible search character is given, the full list otherwise |
| ClaimController.NoCriteriaListsAll | api/src/main/java/com/example/api/controller/ClaimController.java:61-62 | no status and a missing or blank search list every claim |
| ClaimController.CriteriaListFiltered | api/src/main/java/com/example/api/controller/ClaimController.java:56-58 | a status, or a search with a visible character, uses the filtered query |
| ClaimController.CreateClaim | api/src/main/java/com/example/api/controller/ClaimController.java:39-43 | an invalid body is answered 400 and changes nothing; a valid one with a repeated code raises `DuplicateCode` and changes nothing; any other valid one is answered 201 with the service's response |
| ClaimController.CreatedReplyEchoesRequest | api/src/test/java/com/example/api/controller/ClaimControllerTest.java:105-106 | the reply to a valid request with a new code has status INGRESADO and echoes the request |
| ClaimController.GetClaimById | api/src/main/java/com/example/api/controller/ClaimController.java:71-76 | the not-found exception is raised exactly for an unknown id; otherwise 200 with the details |
| ClaimController.UpdateClaimStatus | api/src/main/java/com/example/api/controller/ClaimController.java:85-91 | a body without a status gets 400, an unknown claim the not-found exception, otherwise 200 with the status appended |
| ClaimController.ValidStatusFailsOnlyWhenMissing | api/src/main/java/com/example/api/controller/ClaimController.java:85-91 | once the body is valid, the only failure left is an unknown claim |
| ClaimController.UploadAttachment | api/src/main/java/com/example/api/controller/ClaimController.java:100-107 | the service's error passes through with the store unchanged; otherwise 200 |
| ClaimController.MissingClaimReportedBeforeEmptyFile | api/src/main/java/com/example/api/service/ClaimService.java:184-189 | an empty upload to an unknown claim reports the missing claim |
| ClaimController.RequestsKeepStoreValid | api/src/main/java/com/example/api/controller/ClaimController.java:39-107 | every request keeps the store invariant |
| FormToServer.ToServer | claims-app/src/app/pages/new-claim/new-claim.component.ts:139-143 | the JSON body as the backend binds it: both texts present, the customer id carried over |
| FormToServer.ValidFormAccepted | claims-app/src/app/pages/new-claim/new-claim.component.ts:139-143 | a valid form sends a request that binds exactly when its customer id is at most `Long.MAX_VALUE`, and that the backend's validator accepts whenever the title and description hold a visible character |
| FormToServer.LongOverflowPassesFormOnly | api/src/main/java/com/example/api/dto/CreateClaimRequest.java:13-14 | every decimal customer id above `Long.MAX_VALUE` passes the form's digits-only pattern but cannot be bound to the backend's `Long` |
| FormToServer.SpaceTitlePassesFormOnly | api/src/main/java/com/example/api/dto/CreateClaimRequest.java:7-8 | a title of three spaces passes the web form but is blank to the backend |
| FormToServer.OneCharacterTitleFailsFormOnly | api/src/main/java/com/example/api/dto/CreateClaimRequest.java:7-8 | a one-character title passes the backend but not the web form |

## Left out

- HTTP, routing and framework plumbing: `claim-api.service.ts`, the router, snack-bar durations and panel classes, and loading spinners beyond the flags the components set.
- Exception to HTTP status mapping: the source has no exception handler, so a service exception is `Raised` rather than turned into 404 or 400.
- JSON binding: apart from the `Long` range of `customerId`, Jackson's binding is not modelled: neither its enum binding of `status` nor the key names. The detail page's body uses `estado`/`notas` while `ClaimStatusRequest` reads `status`/`notes`/`asesor_email`.
- The filter watcher's `debounceTime` and `distinctUntilChanged`: the model applies one value change at a time.
- Concurrent uploads in `Promise.all`: only whether they all succeeded is modelled.
- PDF export (jsPDF on the dashboard, iText in `ClaimService.exportClaimsToPdf`): page layout over foreign libraries.
- Persistence: the JPQL of `ReclamoRepository`, the `@PrePersist`/`@PreUpdate` clock stamps, and `findWithFilters`. Query results are inputs and `now` is a parameter.
- `getEstados()` order: the history is assumed to come back in insertion order.
- UUID randomness: the UUID is a parameter.
- `formatFileSize`, `formatDate` and `toLocaleString`: floating point and locale formatting.
- ISO date parsing: dates are integers, with `None` for a date that does not parse.
- Dashboard.FieldIncludes: lower-casing is ASCII only, while `toLowerCase` maps all of Unicode.
- Summary.RecentClaimsAreNewest: a claim without a creation date sorts as time 0, while the source's comparator gives NaN. The two agree when all dates are present.
- JsParse.ParseInt: values at or above 2^53 lose precision in JavaScript and are exact here.
- FormToServer.ValidFormAccepted: the `Long` range is tested on the exact value. In JavaScript `parseInt` rounds ids from 2^53 on, so an id just below 2^63, such as 9223372036854775807, rounds up to 2^63 and is refused by the backend although it binds here.
- Summary.GetStatusCount: a status named like an `Object.prototype` member is not modelled.
- ClaimsChart.ProcessClaimsData: `null` and `undefined` statuses are one key here but two in a JavaScript `Map`. Bar colours beyond the seventh bar are not modelled.
- `getActiveClaims` and `getResolvedClaims`: they look up "EN_PROCESO", "CREADO", "RESUELTO" and "CERRADO", which are never keys of the counts (the keys are descriptions), so both are always 0.
- `downloadAttachment`, `onCancel`, `onBack` and `refresh`: they only show a message or navigate.
- Summary.AverageResolutionDays: floating-point rounding of the day difference and of the average is modelled with exact integer arithmetic.
- Summary.GetPercentage: the exact quotient is rounded half up, while the source rounds a double. The two differ when the double product lands just below a half, e.g. 23 of 40 gives 58 here and 57 in JavaScript. The bounds of `PercentageInRange` hold either way.
- Summary.TopCustomersFacts: a `null` and an `undefined` customer id are one key here (`None`) but two object keys, "null" and "undefined", in the source.
- ClaimService.CurrentStatus: a stored status label the converter does not know makes loading the claim throw. The store holds decoded rows, so that failure is not modelled; a blank label is (it reads as `null`).
- Dashboard.TruncateText: when the cut falls inside a surrogate pair, `substring` keeps a lone high surrogate, which a Dafny string cannot hold. The model stops before that character.
