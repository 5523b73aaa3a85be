/**
 * The database rows the core reads and writes (the Prisma models Usuario,
 * AuditoriaLog, Denuncia, HistorialDenuncia, ReglaSupervisor, MensajeChat),
 * and `Db`, the store that holds one table per model in insertion order.
 * Times are milliseconds since the epoch.
 */
module Schema {
  import opened Wrappers

  datatype Rol = ADMIN | SUPERVISOR | DENUNCIANTE

  datatype EstadoUsuario = ACTIVO | INACTIVO | BLOQUEADO

  datatype Categoria =
    | ACOSO_LABORAL | DISCRIMINACION | FALTA_DE_PAGO
    | ACOSO_SEXUAL | VIOLACION_DERECHOS | OTRO

  datatype Prioridad = BAJA | MEDIA | ALTA | URGENTE

  datatype EstadoDenuncia = PENDIENTE | EN_REVISION | APROBADA | DERIVADA | CERRADA | RECHAZADA

  /** The enum value a request string names, if any (zod's `z.enum`). */
  function ParseRol(s: string): (r: Option<Rol>)
    ensures r.Some? ==> RolName(r.value) == s
    ensures forall x: Rol :: RolName(x) == s ==> r == Some(x)
  {
    if s == "ADMIN" then Some(ADMIN)
    else if s == "SUPERVISOR" then Some(SUPERVISOR)
    else if s == "DENUNCIANTE" then Some(DENUNCIANTE)
    else None
  }

  function RolName(r: Rol): string {
    match r
    case ADMIN => "ADMIN"
    case SUPERVISOR => "SUPERVISOR"
    case DENUNCIANTE => "DENUNCIANTE"
  }

  function CategoriaName(c: Categoria): string {
    match c
    case ACOSO_LABORAL => "ACOSO_LABORAL"
    case DISCRIMINACION => "DISCRIMINACION"
    case FALTA_DE_PAGO => "FALTA_DE_PAGO"
    case ACOSO_SEXUAL => "ACOSO_SEXUAL"
    case VIOLACION_DERECHOS => "VIOLACION_DERECHOS"
    case OTRO => "OTRO"
  }

  function ParseCategoria(s: string): (r: Option<Categoria>)
    ensures r.Some? ==> CategoriaName(r.value) == s
    ensures forall x: Categoria :: CategoriaName(x) == s ==> r == Some(x)
  {
    if s == "ACOSO_LABORAL" then Some(ACOSO_LABORAL)
    else if s == "DISCRIMINACION" then Some(DISCRIMINACION)
    else if s == "FALTA_DE_PAGO" then Some(FALTA_DE_PAGO)
    else if s == "ACOSO_SEXUAL" then Some(ACOSO_SEXUAL)
    else if s == "VIOLACION_DERECHOS" then Some(VIOLACION_DERECHOS)
    else if s == "OTRO" then Some(OTRO)
    else None
  }

  function ParsePrioridad(s: string): Option<Prioridad> {
    if s == "BAJA" then Some(BAJA)
    else if s == "MEDIA" then Some(MEDIA)
    else if s == "ALTA" then Some(ALTA)
    else if s == "URGENTE" then Some(URGENTE)
    else None
  }

  datatype Usuario = Usuario(
    id: string,
    email: string,
    passwordHash: string,
    nombre: Option<string>,
    apellido: Option<string>,
    telefono: Option<string>,
    rol: Rol,
    estado: EstadoUsuario,
    intentosFallidos: nat,
    bloqueadoHasta: Option<int>,
    createdAt: int)

  /** A value inside the `detalles` JSON of an audit row (serialisation is not modelled). */
  datatype Valor =
    | Texto(s: string) | Entero(i: int) | Logico(b: bool) | Instante(t: int)
    | Lista(items: seq<string>) | Objeto(campos: seq<(string, Valor)>) | Nulo

  type Detalles = seq<(string, Valor)>

  datatype AuditoriaLog = AuditoriaLog(
    usuarioId: Option<string>,
    accion: string,
    tabla: Option<string>,
    registroId: Option<string>,
    recurso: Option<string>,
    detalles: Option<Detalles>,
    ipAddress: Option<string>,
    userAgent: Option<string>,
    exitoso: bool,
    createdAt: int)

  datatype Denuncia = Denuncia(
    id: string,
    codigoAnonimo: string,
    titulo: string,
    descripcion: string,
    categoria: Categoria,
    estado: EstadoDenuncia,
    prioridad: Prioridad,
    ubicacionGeneral: Option<string>,
    denuncianteId: Option<string>,
    supervisorId: Option<string>,
    createdAt: int)

  datatype HistorialDenuncia = HistorialDenuncia(
    denunciaId: string,
    estadoAnterior: EstadoDenuncia,
    estadoNuevo: EstadoDenuncia,
    comentario: Option<string>,
    realizadoPor: string,
    createdAt: int)

  datatype ReglaSupervisor = ReglaSupervisor(
    id: string,
    nombre: string,
    descripcion: Option<string>,
    categorias: seq<Categoria>,
    prioridad: nat,
    activa: bool,
    supervisorId: Option<string>,
    createdAt: int)

  datatype MensajeChat = MensajeChat(
    id: string,
    mensaje: string,
    usuarioId: string,
    destinatarioId: string,
    denunciaId: string,
    createdAt: int)

  /** The payload a verified session token carries (`JWTPayload`): no `id` field. */
  datatype Payload = Payload(userId: string, email: string, rol: Rol)

  /** Ids and emails are unique across the user table (the database's unique constraints). */
  ghost predicate UniqueUsers(us: seq<Usuario>) {
    forall i, j :: 0 <= i < j < |us| ==> us[i].id != us[j].id && us[i].email != us[j].email
  }

  predicate HasEmail(us: seq<Usuario>, email: string) {
    exists i :: 0 <= i < |us| && us[i].email == email
  }

  predicate HasId(us: seq<Usuario>, id: string) {
    exists i :: 0 <= i < |us| && us[i].id == id
  }

  /** `findUnique({ where: { email } })`: the position of the row with that email. */
  function IndexOfEmail(us: seq<Usuario>, email: string): (r: Option<nat>)
    ensures r.None? <==> !HasEmail(us, email)
    ensures r.Some? ==> r.value < |us| && us[r.value].email == email
    ensures r.Some? ==> forall j :: 0 <= j < r.value ==> us[j].email != email
  {
    if us == [] then None
    else if us[0].email == email then Some(0)
    else
      match IndexOfEmail(us[1..], email)
      case None => None
      case Some(k) => Some(k + 1)
  }

  /** `findUnique({ where: { id } })`: the position of the row with that id. */
  function IndexOfId(us: seq<Usuario>, id: string): (r: Option<nat>)
    ensures r.None? <==> !HasId(us, id)
    ensures r.Some? ==> r.value < |us| && us[r.value].id == id
    ensures r.Some? ==> forall j :: 0 <= j < r.value ==> us[j].id != id
  {
    if us == [] then None
    else if us[0].id == id then Some(0)
    else
      match IndexOfId(us[1..], id)
      case None => None
      case Some(k) => Some(k + 1)
  }

  /** With unique ids, looking a row up by its own id finds that row. */
  lemma IndexOfOwnId(us: seq<Usuario>, i: nat)
    requires UniqueUsers(us) && i < |us|
    ensures IndexOfId(us, us[i].id) == Some(i)
  {
  }

  /** With unique emails, looking a row up by its own email finds that row. */
  lemma IndexOfOwnEmail(us: seq<Usuario>, i: nat)
    requires UniqueUsers(us) && i < |us|
    ensures IndexOfEmail(us, us[i].email) == Some(i)
  {
  }

  /** Rewriting a row without touching its id or email keeps ids and emails unique. */
  lemma UpdateKeepsUnique(us: seq<Usuario>, i: nat, u: Usuario)
    requires UniqueUsers(us) && i < |us|
    requires u.id == us[i].id && u.email == us[i].email
    ensures UniqueUsers(us[i := u])
  {
  }

  /** Appending a row with a new id and a new email keeps ids and emails unique. */
  lemma AppendKeepsUnique(us: seq<Usuario>, u: Usuario)
    requires UniqueUsers(us)
    requires !HasId(us, u.id) && !HasEmail(us, u.email)
    ensures UniqueUsers(us + [u])
  {
  }

  /** The database: one table per model, rows in insertion order. */
  class Db {
    var usuarios: seq<Usuario>
    var logs: seq<AuditoriaLog>
    var denuncias: seq<Denuncia>
    var historial: seq<HistorialDenuncia>
    var reglas: seq<ReglaSupervisor>
    var mensajes: seq<MensajeChat>

    ghost predicate Valid()
      reads this
    {
      UniqueUsers(usuarios)
    }

    constructor ()
      ensures Valid()
      ensures usuarios == [] && logs == [] && denuncias == []
      ensures historial == [] && reglas == [] && mensajes == []
    {
      usuarios, logs, denuncias := [], [], [];
      historial, reglas, mensajes := [], [], [];
    }
  }
}
