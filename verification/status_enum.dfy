/** The backend's claim status enumeration (`EstadoReclamoEnum`): seven constants,
    each carrying the human-readable description that is stored in the database
    and shown to users. */
module StatusEnum {

  datatype EstadoReclamoEnum =
    | INGRESADO
    | EN_PROCESO
    | RESUELTO
    | CERRADO
    | RECHAZADO
    | ESCALADO
    | PENDIENTE_INFORMACION

  /** `values()`: every constant, in declaration order. */
  const Values: seq<EstadoReclamoEnum> :=
    [INGRESADO, EN_PROCESO, RESUELTO, CERRADO, RECHAZADO, ESCALADO, PENDIENTE_INFORMACION]

  /** `getDescripcion()`. */
  function Descripcion(e: EstadoReclamoEnum): string
  {
    match e
    case INGRESADO => "Ingresado"
    case EN_PROCESO => "En Proceso"
    case RESUELTO => "Resuelto"
    case CERRADO => "Cerrado"
    case RECHAZADO => "Rechazado"
    case ESCALADO => "Escalado"
    case PENDIENTE_INFORMACION => "Pendiente Información"
  }

  /** `name()`: the identifier of the constant, which is what `valueOf` accepts. */
  function Name(e: EstadoReclamoEnum): string
  {
    match e
    case INGRESADO => "INGRESADO"
    case EN_PROCESO => "EN_PROCESO"
    case RESUELTO => "RESUELTO"
    case CERRADO => "CERRADO"
    case RECHAZADO => "RECHAZADO"
    case ESCALADO => "ESCALADO"
    case PENDIENTE_INFORMACION => "PENDIENTE_INFORMACION"
  }

  /** The position of a constant in `values()`. */
  function Ordinal(e: EstadoReclamoEnum): (i: nat)
    ensures i < |Values| && Values[i] == e
  {
    match e
    case INGRESADO => 0
    case EN_PROCESO => 1
    case RESUELTO => 2
    case CERRADO => 3
    case RECHAZADO => 4
    case ESCALADO => 5
    case PENDIENTE_INFORMACION => 6
  }

  /** There are exactly seven constants, each listed once. */
  lemma ValuesEnumerateAll()
    ensures |Values| == 7
    ensures forall i, j :: 0 <= i < j < |Values| ==> Values[i] != Values[j]
    ensures forall e: EstadoReclamoEnum :: e in Values
  {
    forall e: EstadoReclamoEnum ensures e in Values {
      assert Values[Ordinal(e)] == e;
    }
  }

  /** Different constants have different descriptions, so looking a constant up by
      its description is unambiguous. */
  lemma DescripcionInjective(a: EstadoReclamoEnum, b: EstadoReclamoEnum)
    ensures Descripcion(a) == Descripcion(b) <==> a == b
  {
  }

  /** Different constants have different names. */
  lemma NameInjective(a: EstadoReclamoEnum, b: EstadoReclamoEnum)
    ensures Name(a) == Name(b) <==> a == b
  {
  }

  /** No description is the name of any constant, so matching descriptions first
      and names second never conflict. */
  lemma DescripcionNeverAName(a: EstadoReclamoEnum, b: EstadoReclamoEnum)
    ensures Descripcion(a) != Name(b)
  {
  }
}
