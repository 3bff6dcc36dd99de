/** The JPA attribute converter between `EstadoReclamoEnum` and its database
    column (`EstadoReclamoConverter`): a constant is stored as its description;
    a column value is read back by description first, then by constant name. */
module StatusConverter {
  import opened Common
  import opened Strings
  import opened StatusEnum

  /** `IllegalArgumentException` with its message. */
  datatype IllegalArgument = IllegalArgument(message: string)

  /** The first constant of `vals` whose tag (description or name) is `s`. */
  function FindFirst(vals: seq<EstadoReclamoEnum>, tag: EstadoReclamoEnum -> string, s: string): (r: Option<EstadoReclamoEnum>)
    ensures r.Some? ==> r.value in vals && tag(r.value) == s
    ensures r.None? ==> forall i :: 0 <= i < |vals| ==> tag(vals[i]) != s
  {
    if |vals| == 0 then None
    else if tag(vals[0]) == s then Some(vals[0])
    else FindFirst(vals[1..], tag, s)
  }

  /** `convertToDatabaseColumn`: null stays null, a constant becomes its description. */
  function ConvertToDatabaseColumn(estado: Option<EstadoReclamoEnum>): (r: Option<string>)
    ensures r.None? <==> estado.None?
  {
    match estado
    case None => None
    case Some(e) => Some(Descripcion(e))
  }

  /** `convertToEntityAttribute`: null or blank reads as null; otherwise the
      constant with that exact description, else the constant with that exact
      name, else `IllegalArgumentException("Unknown estado: " + dbData)`. */
  function ConvertToEntityAttribute(dbData: Option<string>): (r: Result<Option<EstadoReclamoEnum>, IllegalArgument>)
    ensures r.Ok? && r.value.Some? ==>
      dbData.Some? && (dbData.value == Descripcion(r.value.value) || dbData.value == Name(r.value.value))
    ensures r.Err? ==> dbData.Some? && r.error.message == "Unknown estado: " + dbData.value
  {
    if dbData.None? || IsBlank(dbData.value) then Ok(None)
    else
      match FindFirst(Values, Descripcion, dbData.value)
      case Some(e) => Ok(Some(e))
      case None =>
        match FindFirst(Values, Name, dbData.value)
        case Some(e) => Ok(Some(e))
        case None => Err(IllegalArgument("Unknown estado: " + dbData.value))
  }

  /** No description is blank: each starts with a capital letter. */
  lemma DescripcionNotBlank(e: EstadoReclamoEnum)
    ensures !IsBlank(Descripcion(e))
  {
    NotBlankWhenVisible(Descripcion(e), 0);
  }

  /** No constant name is blank. */
  lemma NameNotBlank(e: EstadoReclamoEnum)
    ensures !IsBlank(Name(e))
  {
    NotBlankWhenVisible(Name(e), 0);
  }

  /** Round trip: reading back what was written gives the original value, for
      null and for each of the seven constants. */
  lemma RoundTrip(estado: Option<EstadoReclamoEnum>)
    ensures ConvertToEntityAttribute(ConvertToDatabaseColumn(estado)) == Ok(estado)
  {
    if estado.Some? {
      var e := estado.value;
      DescripcionNotBlank(e);
      var found := FindFirst(Values, Descripcion, Descripcion(e));
      assert Values[Ordinal(e)] == e;
      assert found.Some?;
      DescripcionInjective(found.value, e);
    }
  }

  /** Constant names are accepted too: `"EN_PROCESO"` reads as `EN_PROCESO`. */
  lemma AcceptsNames(e: EstadoReclamoEnum)
    ensures ConvertToEntityAttribute(Some(Name(e))) == Ok(Some(e))
  {
    NameNotBlank(e);
    forall i | 0 <= i < |Values| ensures Descripcion(Values[i]) != Name(e) {
      DescripcionNeverAName(Values[i], e);
    }
    var found := FindFirst(Values, Name, Name(e));
    assert Values[Ordinal(e)] == e;
    assert found.Some?;
    NameInjective(found.value, e);
  }

  /** Null and blank column values read as null. */
  lemma BlankReadsAsNull(dbData: string)
    requires IsBlank(dbData)
    ensures ConvertToEntityAttribute(Some(dbData)) == Ok(None)
  {
  }

  /** A non-blank value is rejected exactly when it is neither a description nor a
      constant name; the message quotes the value. */
  lemma RejectsIff(dbData: string)
    ensures ConvertToEntityAttribute(Some(dbData)).Err? <==>
      !IsBlank(dbData) && forall e: EstadoReclamoEnum :: dbData != Descripcion(e) && dbData != Name(e)
    ensures ConvertToEntityAttribute(Some(dbData)).Err? ==>
      ConvertToEntityAttribute(Some(dbData)).error == IllegalArgument("Unknown estado: " + dbData)
  {
    var r := ConvertToEntityAttribute(Some(dbData));
    if !IsBlank(dbData) && exists e: EstadoReclamoEnum :: dbData == Descripcion(e) || dbData == Name(e) {
      var e: EstadoReclamoEnum :| dbData == Descripcion(e) || dbData == Name(e);
      assert Values[Ordinal(e)] == e;
    }
  }

  /** No description or name starts with a space. */
  lemma LabelsStartVisible(e: EstadoReclamoEnum)
    ensures |Descripcion(e)| > 0 && Descripcion(e)[0] != ' '
    ensures |Name(e)| > 0 && Name(e)[0] != ' '
  {
  }

  /** Matching is exact: the blank check trims, but the lookups do not, so a
      description with a leading space is rejected. */
  lemma LeadingSpaceRejected(e: EstadoReclamoEnum)
    ensures ConvertToEntityAttribute(Some(" " + Descripcion(e))).Err?
  {
    var s := " " + Descripcion(e);
    assert s[1] == Descripcion(e)[0];
    LabelsStartVisible(e);
    NotBlankWhenVisible(s, 1);
    forall e': EstadoReclamoEnum
      ensures s != Descripcion(e') && s != Name(e')
    {
      LabelsStartVisible(e');
    }
    RejectsIff(s);
  }
}
