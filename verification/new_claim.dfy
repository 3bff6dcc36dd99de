/** The claim-creation form (`NewClaimComponent`): field validation with Angular's
    built-in validators, the error text shown under a field, file selection with
    type and size checks, removing a selected file, and the outcome of submitting. */
module NewClaim {
  import opened Common
  import opened Strings
  import opened Seqs
  import opened JsParse

  // ---------------------------------------------------------------- validation

  datatype Field = Title | Description | CustomerId

  /** The validators attached to a field; every field is `Validators.required`. */
  datatype Rules = Rules(minLength: Option<nat>, maxLength: Option<nat>, digitsOnly: bool)

  function RulesOf(f: Field): Rules
  {
    match f
    case Title => Rules(Some(3), Some(100), false)
    case Description => Rules(Some(10), Some(1000), false)
    case CustomerId => Rules(None, None, true)
  }

  /** The `errors` object of a control; `None` or `false` means the key is absent.
      The length keys carry `requiredLength`. */
  datatype Errors = Errors(required: bool, minlength: Option<nat>, maxlength: Option<nat>, pattern: bool)

  /** Angular's validators: `required` rejects the empty string; `minLength` and
      `pattern` let the empty string through (leaving it to `required`);
      `maxLength` rejects only what is too long; `/^\d+$/` wants ASCII digits.
      The length bounds compare the value's `length`, in UTF-16 code units. */
  function Validate(rules: Rules, v: string): (e: Errors)
    ensures e.required <==> |v| == 0
    ensures e.minlength.Some? <==> rules.minLength.Some? && 0 < Utf16Length(v) < rules.minLength.value
    ensures e.maxlength.Some? <==> rules.maxLength.Some? && Utf16Length(v) > rules.maxLength.value
    ensures e.pattern <==> rules.digitsOnly && 0 < |v| && !AllDigits(v)
  {
    var n := Utf16Length(v);
    Errors(
      n == 0,
      if rules.minLength.Some? && 0 < n < rules.minLength.value then rules.minLength else None,
      if rules.maxLength.Some? && n > rules.maxLength.value then rules.maxLength else None,
      rules.digitsOnly && 0 < n && !AllDigits(v))
  }

  predicate NoErrors(e: Errors)
  {
    !e.required && e.minlength.None? && e.maxlength.None? && !e.pattern
  }

  predicate FieldValid(f: Field, v: string)
  {
    NoErrors(Validate(RulesOf(f), v))
  }

  /** What each field accepts, stated without the validators: a title of 3 to 100
      code units, a description of 10 to 1000, a customer id of digits only. */
  lemma FieldValidIff(f: Field, v: string)
    ensures f == Title ==> (FieldValid(f, v) <==> 3 <= Utf16Length(v) <= 100)
    ensures f == Description ==> (FieldValid(f, v) <==> 10 <= Utf16Length(v) <= 1000)
    ensures f == CustomerId ==> (FieldValid(f, v) <==> AllDigits(v))
  {
  }

  /** Two emoji make a valid title: each takes two code units, so the length the
      validator sees is 4. */
  lemma TwoEmojiTitleValid()
    ensures |"\U{1F600}\U{1F600}"| == 2
    ensures FieldValid(Title, "\U{1F600}\U{1F600}")
  {
    var t := "\U{1F600}\U{1F600}";
    assert t[1..][1..] == [];
    assert Utf16Length(t) == 4;
  }

  datatype FormState = FormState(
    title: string, description: string, customerId: string,
    touched: set<Field>)

  function ValueOf(form: FormState, f: Field): string
  {
    match f
    case Title => form.title
    case Description => form.description
    case CustomerId => form.customerId
  }

  /** `claimForm.valid`: every control is valid. */
  predicate FormValid(form: FormState)
  {
    FieldValid(Title, form.title) && FieldValid(Description, form.description) && FieldValid(CustomerId, form.customerId)
  }

  // ---------------------------------------------------------------- field errors

  /** `claimForm.get(fieldName)`: the control with that name, if any. */
  function FieldNamed(name: string): (r: Option<Field>)
    ensures r == Some(Title) <==> name == "title"
    ensures r == Some(Description) <==> name == "description"
    ensures r == Some(CustomerId) <==> name == "customerId"
  {
    if name == "title" then Some(Title)
    else if name == "description" then Some(Description)
    else if name == "customerId" then Some(CustomerId)
    else None
  }

  function LabelOf(f: Field): (r: string)
    ensures |r| > 0
  {
    match f
    case Title => "Título"
    case Description => "Descripción"
    case CustomerId => "ID de Cliente"
  }

  /** The text for the first error present, checked in the order `required`,
      `minlength`, `maxlength`, `pattern`. */
  function ErrorText(name: string, e: Errors): (r: string)
    requires |name| > 0
    ensures r == "" <==> NoErrors(e)
    ensures r != "" ==> StartsWith(r, name)
  {
    if e.required then name + " es requerido"
    else if e.minlength.Some? then name + " debe tener al menos " + NatToString(e.minlength.value) + " caracteres"
    else if e.maxlength.Some? then name + " no debe exceder " + NatToString(e.maxlength.value) + " caracteres"
    else if e.pattern then name + " debe ser un número válido"
    else ""
  }

  /** `getFieldError`: a message exactly when the named field exists, is invalid
      and has been touched; the message starts with the field's label. */
  function GetFieldError(form: FormState, fieldName: string): (r: string)
    ensures r != "" <==>
      FieldNamed(fieldName).Some?
      && FieldNamed(fieldName).value in form.touched
      && !FieldValid(FieldNamed(fieldName).value, ValueOf(form, FieldNamed(fieldName).value))
    ensures r != "" ==> StartsWith(r, LabelOf(FieldNamed(fieldName).value))
  {
    match FieldNamed(fieldName)
    case None => ""
    case Some(f) =>
      if f in form.touched then ErrorText(LabelOf(f), Validate(RulesOf(f), ValueOf(form, f)))
      else ""
  }

  /** The control name of a field. */
  function FieldName(f: Field): string
  {
    match f
    case Title => "title"
    case Description => "description"
    case CustomerId => "customerId"
  }

  lemma FieldNameRoundTrip(f: Field)
    ensures FieldNamed(FieldName(f)) == Some(f)
  {
  }

  /** An empty touched field reports that it is required, never a length or format
      error. */
  lemma EmptyFieldIsRequired(form: FormState, f: Field)
    requires f in form.touched && ValueOf(form, f) == ""
    ensures GetFieldError(form, FieldName(f)) == LabelOf(f) + " es requerido"
  {
    FieldNameRoundTrip(f);
  }

  /** A non-empty title shorter than 3 code units reports the minimum length. */
  lemma ShortTitleMessage(form: FormState)
    requires Title in form.touched && 0 < |form.title| && Utf16Length(form.title) < 3
    ensures GetFieldError(form, "title") == LabelOf(Title) + " debe tener al menos " + "3" + " caracteres"
  {
    ThreeToString();
    assert Validate(RulesOf(Title), form.title).minlength == Some(3);
  }

  lemma ThreeToString()
    ensures NatToString(3) == "3"
  {
  }

  /** A customer id with a letter in it is reported as not a number. */
  lemma LetterInCustomerIdMessage(form: FormState, i: nat)
    requires CustomerId in form.touched && i < |form.customerId| && !IsDigit(form.customerId[i])
    ensures GetFieldError(form, "customerId") == LabelOf(CustomerId) + " debe ser un número válido"
  {
    assert Validate(RulesOf(CustomerId), form.customerId).pattern;
  }

  // ---------------------------------------------------------------- files

  datatype FileInfo = FileInfo(name: string, mimeType: string, size: nat)

  const MaxFileSize: nat := 10 * 1024 * 1024

  const AllowedFileTypes: seq<string> := [
    "image/jpeg", "image/png", "image/gif", "application/pdf", "text/plain",
    "application/msword",
    "application/vnd.openxmlformats-officedocument.wordprocessingml.document"]

  /** Why a file is refused, if it is: the type is checked before the size. */
  function Rejection(f: FileInfo): (r: Option<string>)
    ensures r.None? <==> f.mimeType in AllowedFileTypes && f.size <= MaxFileSize
    ensures f.mimeType !in AllowedFileTypes ==> r == Some(f.name + ": Tipo de archivo no permitido")
    ensures f.mimeType in AllowedFileTypes && f.size > MaxFileSize ==>
      r == Some(f.name + ": El tamaño del archivo excede el límite de 10MB")
  {
    if f.mimeType !in AllowedFileTypes then Some(f.name + ": Tipo de archivo no permitido")
    else if f.size > MaxFileSize then Some(f.name + ": El tamaño del archivo excede el límite de 10MB")
    else None
  }

  /** `onFileSelected`: the files kept afterwards and the snack-bar text, if one
      opens. A `null` file list changes nothing. */
  method OnFileSelected(selected: seq<FileInfo>, picked: Option<seq<FileInfo>>)
    returns (files: seq<FileInfo>, message: Option<string>)
    ensures picked.None? ==> files == selected && message.None?
    ensures picked.Some? ==> files == selected + Filter(picked.value, NoneTest(Rejection))
    ensures picked.Some? ==> (message.None? <==> forall i :: 0 <= i < |picked.value| ==> Rejection(picked.value[i]).None?)
    ensures message.Some? ==> message.value == Join(Somes(picked.value, Rejection), ", ")
  {
    if picked.None? {
      return selected, None;
    }
    var valid, errors := Partition(picked.value, Rejection);
    SomesEmptyIff(picked.value, Rejection);
    message := if |errors| > 0 then Some(Join(errors, ", ")) else None;
    files := if |valid| > 0 then selected + valid else selected;
  }

  /** A file of exactly 10 MiB of an allowed type is accepted; one byte more is not. */
  lemma SizeLimitInclusive(name: string)
    ensures Rejection(FileInfo(name, "application/pdf", MaxFileSize)).None?
    ensures Rejection(FileInfo(name, "application/pdf", MaxFileSize + 1)).Some?
  {
  }

  /** `files.splice(index, 1)`: a negative index counts from the end (clamped at
      0); an index past the end removes nothing. */
  function RemoveFile(files: seq<FileInfo>, index: int): (r: seq<FileInfo>)
    ensures 0 <= index < |files| ==> r == files[..index] + files[index + 1..]
    ensures -|files| <= index < 0 ==> r == files[..|files| + index] + files[|files| + index + 1..]
    ensures index >= |files| ==> r == files
    ensures index < -|files| ==> r == if |files| == 0 then files else files[1..]
    ensures |r| == if index >= |files| || |files| == 0 then |files| else |files| - 1
  {
    var start := if index < 0 then (if |files| + index < 0 then 0 else |files| + index) else index;
    if start >= |files| then files else files[..start] + files[start + 1..]
  }

  /** Removing the file at a valid position keeps every other file in order. */
  lemma RemoveFileKeepsOthers(files: seq<FileInfo>, index: nat)
    requires index < |files|
    ensures multiset(RemoveFile(files, index)) + multiset{files[index]} == multiset(files)
  {
    assert files == files[..index] + [files[index]] + files[index + 1..];
  }

  /** `getFileIcon`. */
  function GetFileIcon(fileType: string): (r: string)
    ensures StartsWith(fileType, "image/") ==> r == "image"
    ensures fileType == "application/pdf" ==> r == "picture_as_pdf"
    ensures !StartsWith(fileType, "image/") && fileType != "application/pdf" && Contains(fileType, "word") ==>
      r == "description"
    ensures r == "insert_drive_file" <==>
      !StartsWith(fileType, "image/") && fileType != "application/pdf" && !Contains(fileType, "word")
  {
    assert "application/pdf"[..6][0] != "image/"[0];
    if StartsWith(fileType, "image/") then "image"
    else if fileType == "application/pdf" then "picture_as_pdf"
    else if Contains(fileType, "word") then "description"
    else "insert_drive_file"
  }

  /** A type that mentions "word" and is neither an image nor a PDF gets the
      document icon: both Word formats the form accepts are such types. */
  lemma WordDocumentIcon(fileType: string, i: nat)
    requires OccursAt(fileType, "word", i)
    requires !StartsWith(fileType, "image/") && fileType != "application/pdf"
    ensures GetFileIcon(fileType) == "description"
  {
    ContainsIff(fileType, "word");
  }

  /** Plain text gets the generic icon although it is an allowed type. */
  lemma PlainTextIcon()
    ensures GetFileIcon("text/plain") == "insert_drive_file"
  {
    var t := "text/plain";
    assert !StartsWith(t, "image/") by {
      assert t[..6][0] != "image/"[0];
    }
    assert t != "application/pdf" by {
      assert |t| != |"application/pdf"|;
    }
    MissingFirstCharNotContained(t, "word");
  }

  // ---------------------------------------------------------------- submitting

  /** The front end's `CreateClaimRequest`; `customerId` is `parseInt` of the
      field, `None` standing for NaN. */
  datatype CreateClaimRequest = CreateClaimRequest(title: string, description: string, customerId: Option<int>)

  /** How the create call ends: it fails, it answers with no body, or with a claim. */
  datatype CreateOutcome = CreateFailed | CreatedNothing | Created(id: int)

  datatype NoticeKind = Success | Failure
  datatype Notice = Notice(kind: NoticeKind, text: string)

  datatype Route = ToDashboard | ToClaim(id: int)

  datatype Submission = Submission(
    request: Option<CreateClaimRequest>,
    uploads: seq<(int, FileInfo)>,
    notice: Notice,
    navigation: Option<Route>,
    form: FormState,
    loading: bool)

  const InvalidFormText: string := "Por favor completa todos los campos requeridos correctamente."
  const CreateFailedText: string := "Error al crear la reclamación. Por favor inténtalo de nuevo."
  const CreatedWithFilesText: string := "Reclamación creada exitosamente con adjuntos!"
  const SomeUploadsFailedText: string := "Reclamación creada exitosamente, pero algunos adjuntos no se pudieron cargar."
  const CreatedText: string := "Reclamación creada exitosamente!"

  function UploadsFor(id: int, files: seq<FileInfo>): (r: seq<(int, FileInfo)>)
    ensures |r| == |files| && forall i :: 0 <= i < |r| ==> r[i] == (id, files[i])
  {
    Map(files, (f: FileInfo) => (id, f))
  }

  /** `onSubmit`, given how the create call and the uploads end. `uploadsSucceed`
      says whether every upload succeeded (`Promise.all` rejects on the first
      failure). */
  function OnSubmit(form: FormState, files: seq<FileInfo>, create: CreateOutcome, uploadsSucceed: bool): (r: Submission)
    ensures !r.loading
    ensures !FormValid(form) ==>
      r.request.None? && r.uploads == [] && r.navigation.None?
      && r.notice == Notice(Failure, InvalidFormText)
      && r.form == form.(touched := {Title, Description, CustomerId})
    ensures FormValid(form) ==>
      r.request == Some(CreateClaimRequest(form.title, form.description, Some(ParseDigits(form.customerId))))
      && r.form == form
    ensures FormValid(form) && create.CreateFailed? ==>
      r.notice == Notice(Failure, CreateFailedText) && r.navigation.None? && r.uploads == []
    ensures FormValid(form) && create.CreatedNothing? ==>
      r.notice == Notice(Success, CreatedText) && r.navigation == Some(ToDashboard) && r.uploads == []
    ensures FormValid(form) && create.Created? ==>
      r.navigation == Some(ToClaim(create.id)) && r.uploads == UploadsFor(create.id, files)
      && r.notice.kind == Success
      && (r.notice.text == SomeUploadsFailedText <==> |files| > 0 && !uploadsSucceed)
  {
    if !FormValid(form) then
      Submission(None, [], Notice(Failure, InvalidFormText), None,
                 form.(touched := {Title, Description, CustomerId}), false)
    else
      ParseIntOfDigits(form.customerId);
      var request := CreateClaimRequest(form.title, form.description, ParseInt(form.customerId));
      match create
      case CreateFailed => Submission(Some(request), [], Notice(Failure, CreateFailedText), None, form, false)
      case CreatedNothing => Submission(Some(request), [], Notice(Success, CreatedText), Some(ToDashboard), form, false)
      case Created(id) =>
        var text := if |files| > 0 then (if uploadsSucceed then CreatedWithFilesText else SomeUploadsFailedText)
                    else CreatedText;
        Submission(Some(request), UploadsFor(id, files), Notice(Success, text), Some(ToClaim(id)), form, false)
  }

  /** A form that was submitted invalid shows an error under every invalid field. */
  lemma InvalidSubmitShowsErrors(form: FormState, files: seq<FileInfo>, create: CreateOutcome, ok: bool)
    requires !FormValid(form)
    ensures var f := OnSubmit(form, files, create, ok).form;
      (!FieldValid(Title, form.title) ==> GetFieldError(f, "title") != "")
      && (!FieldValid(Description, form.description) ==> GetFieldError(f, "description") != "")
      && (!FieldValid(CustomerId, form.customerId) ==> GetFieldError(f, "customerId") != "")
  {
  }

  /** `onCancel`. */
  function OnCancel(): Route { ToDashboard }
}
