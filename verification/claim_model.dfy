/** The front end's view of a claim (`ClaimResponse` in claim.model.ts) and its
    status enumeration (`ClaimStatusEnum` in claim-status.model.ts).

    Every field the views read through optional chaining is an `Option`: the
    gateway passes the backend's JSON through unchanged, so a field the backend
    does not send is `undefined` at run time. Timestamps are milliseconds since
    the epoch; `None` stands for a date that is missing or does not parse
    (`new Date(...)` giving NaN). */
module ClaimModel {
  import opened Common
  import Seqs
  import StatusEnum

  datatype Claim = Claim(
    id: int,
    codigo: Option<string>,
    titulo: Option<string>,
    descripcion: Option<string>,
    clienteId: Option<int>,
    estadoActual: Option<string>,
    fechaCreacion: Option<int>,
    fechaActualizacion: Option<int>)

  // The values of `ClaimStatusEnum`.
  const Ingresado: string := "Ingresado"
  const EnProceso: string := "En Proceso"
  const Resuelto: string := "Resuelto"
  const Cerrado: string := "Cerrado"
  const Rechazado: string := "Rechazado"
  const Escalado: string := "Escalado"
  const PendienteInformacion: string := "Pendiente Información"

  /** `Object.values(ClaimStatusEnum)`, in declaration order. */
  const StatusValues: seq<string> :=
    [Ingresado, EnProceso, Resuelto, Cerrado, Rechazado, Escalado, PendienteInformacion]

  /** The status a claim is counted under (`claim.estadoActual`). */
  function StatusKey(c: Claim): Option<string> { c.estadoActual }

  function SomeOf(s: string): Option<string> { Some(s) }

  /** The front-end enumeration lists exactly the backend's descriptions, in the
      backend's declaration order, each once. */
  lemma StatusValuesMatchBackend()
    ensures StatusValues == Seqs.Map(StatusEnum.Values, StatusEnum.Descripcion)
    ensures Seqs.NoDups(StatusValues)
  {
  }
}
