/**
 * /api/usuarios: the administrator's user list (GET) and supervisor creation
 * (POST). The caller is read with `authorization.replace("Bearer ", "")` and
 * the parameter `verify`; bcrypt (10 rounds) is the parameter `hash`, the id of
 * the created row the parameter `newId`.
 */
module UsuariosRoute {
  import opened Wrappers
  import opened Schema
  import opened Sorting
  import opened Auditoria
  import opened Session

  /** The columns both handlers select: no password hash, no phone, no lock state. */
  datatype UserListing = UserListing(
    id: string, nombre: Option<string>, apellido: Option<string>, email: string, rol: Rol, createdAt: int)

  function Listing(u: Usuario): UserListing {
    UserListing(u.id, u.nombre, u.apellido, u.email, u.rol, u.createdAt)
  }

  datatype Response =
    | Err(status: nat, error: string)
    | Users(list: seq<UserListing>)
    | CreatedUser(user: UserListing)

  function Status(r: Response): nat {
    match r
    case Err(status, _) => status
    case Users(_) => 200
    case CreatedUser(_) => 201
  }

  const UNAUTHORIZED := Err(401, "No autorizado")
  const FORBIDDEN := Err(403, "Acceso denegado")

  /** The shared gate: 401 without a token, 403 unless the token verifies to an ADMIN. */
  function Gate(header: Option<string>, verify: string -> Option<Payload>): (r: Option<Response>)
    ensures r == Some(UNAUTHORIZED) <==> StrippedToken(header).None?
    ensures r == Some(FORBIDDEN) <==>
      StrippedToken(header).Some? && (verify(StrippedToken(header).value).None? || verify(StrippedToken(header).value).value.rol != ADMIN)
    ensures r.None? <==>
      StrippedToken(header).Some? && verify(StrippedToken(header).value).Some? && verify(StrippedToken(header).value).value.rol == ADMIN
  {
    match StrippedToken(header)
    case None => Some(UNAUTHORIZED)
    case Some(token) =>
      match verify(token)
      case None => Some(FORBIDDEN)
      case Some(usuario) => if usuario.rol != ADMIN then Some(FORBIDDEN) else None
  }

  predicate Selected(u: Usuario, rol: Option<Rol>) {
    rol.None? || u.rol == rol.value
  }

  function FilterRol(us: seq<Usuario>, rol: Option<Rol>): (r: seq<Usuario>)
    ensures forall u :: u in r <==> u in us && Selected(u, rol)
    ensures rol.None? ==> r == us
  {
    if us == [] then []
    else (if Selected(us[0], rol) then [us[0]] else []) + FilterRol(us[1..], rol)
  }

  predicate NewerUser(a: Usuario, b: Usuario) {
    a.createdAt >= b.createdAt
  }

  lemma NewerUserIsTotalPreorder()
    ensures TotalPreorder(NewerUser)
  {
  }

  function Project(s: seq<Usuario>): (r: seq<UserListing>)
    ensures |r| == |s| && forall i :: 0 <= i < |s| ==> r[i] == Listing(s[i])
  {
    seq(|s|, i requires 0 <= i < |s| => Listing(s[i]))
  }

  /** `orderBy: { createdAt: "desc" }`. */
  function ByNewest(s: seq<Usuario>): (r: seq<Usuario>)
    ensures multiset(r) == multiset(s) && |r| == |s|
    ensures forall i, j :: 0 <= i < j < |r| ==> r[i].createdAt >= r[j].createdAt
  {
    NewerUserIsTotalPreorder();
    SortBy(s, NewerUser)
  }

  lemma ProjectMember(s: seq<Usuario>, x: UserListing)
    ensures x in Project(s) <==> exists u :: u in s && Listing(u) == x
  {
    var r := Project(s);
    if x in r {
      var i :| 0 <= i < |r| && r[i] == x;
      assert s[i] in s;
    }
    if exists u :: u in s && Listing(u) == x {
      var u :| u in s && Listing(u) == x;
      var i :| 0 <= i < |s| && s[i] == u;
      assert r[i] == x;
    }
  }

  lemma SameMembers(s: seq<Usuario>, t: seq<Usuario>)
    requires multiset(s) == multiset(t)
    ensures forall u :: u in s <==> u in t
  {
    forall u ensures u in s <==> u in t {
      assert u in s <==> u in multiset(s);
      assert u in t <==> u in multiset(t);
    }
  }

  /** findMany with the optional rol filter, newest first, projected to the listed columns. */
  function ListUsers(us: seq<Usuario>, rol: Option<Rol>): (r: seq<UserListing>)
    ensures forall i, j :: 0 <= i < j < |r| ==> r[i].createdAt >= r[j].createdAt
    ensures forall x :: x in r <==> exists u :: u in us && Selected(u, rol) && Listing(u) == x
    ensures |r| == |FilterRol(us, rol)|
    ensures rol.None? ==> |r| == |us|
  {
    var selected := FilterRol(us, rol);
    var ordered := ByNewest(selected);
    SameMembers(ordered, selected);
    forall x ensures x in Project(ordered) <==> exists u :: u in us && Selected(u, rol) && Listing(u) == x {
      ProjectMember(ordered, x);
    }
    Project(ordered)
  }

  /**
   * GET: `rol` filters when truthy; a value outside the Rol enum is refused by
   * the database, which the handler answers with 500.
   */
  function GetSpec(us: seq<Usuario>, header: Option<string>, verify: string -> Option<Payload>,
                   rolParam: Option<string>): (r: Response)
    ensures Gate(header, verify).Some? ==> r == Gate(header, verify).value
    ensures r.Users? <==> Gate(header, verify).None? && (rolParam.None? || rolParam.value == "" || ParseRol(rolParam.value).Some?)
    ensures r.Users? && (rolParam.None? || rolParam.value == "") ==> r.list == ListUsers(us, None)
    ensures r.Users? && rolParam.Some? && rolParam.value != "" ==> r.list == ListUsers(us, ParseRol(rolParam.value))
  {
    if Gate(header, verify).Some? then Gate(header, verify).value
    else if rolParam.None? || rolParam.value == "" then Users(ListUsers(us, None))
    else match ParseRol(rolParam.value)
      case None => Err(500, "Error al obtener usuarios")
      case Some(rol) => Users(ListUsers(us, Some(rol)))
  }

  /** The POST body as received: each field is absent or a string. */
  datatype CreateBody = CreateBody(
    nombre: Option<string>, apellido: Option<string>, email: Option<string>,
    password: Option<string>, rol: Option<string>)

  predicate Present(v: Option<string>) {
    v.Some? && v.value != ""
  }

  predicate AllPresent(b: CreateBody) {
    Present(b.nombre) && Present(b.apellido) && Present(b.email) && Present(b.password) && Present(b.rol)
  }

  const MISSING_FIELDS := Err(400, "Todos los campos son obligatorios")
  const ONLY_SUPERVISOR := Err(400, "Solo se pueden crear usuarios con rol SUPERVISOR")
  const EMAIL_TAKEN := Err(400, "El email ya está registrado")

  /** The created row: the columns the handler leaves out take the table's defaults. */
  function NewSupervisor(b: CreateBody, newId: string, passwordHash: string, now: int): (u: Usuario)
    requires AllPresent(b)
    ensures u.rol == SUPERVISOR && u.estado == ACTIVO && u.intentosFallidos == 0 && u.bloqueadoHasta.None?
    ensures u.id == newId && u.email == b.email.value && u.passwordHash == passwordHash
    ensures u.nombre == b.nombre && u.apellido == b.apellido && u.telefono.None?
  {
    Usuario(newId, b.email.value, passwordHash, b.nombre, b.apellido, None, SUPERVISOR, ACTIVO, 0, None, now)
  }

  /**
   * The audit row. The actor is read as `usuario.id`, but a verified payload
   * carries `userId` and no `id`, so the actor is always absent.
   */
  function CrearSupervisorData(u: Usuario, client: Client): (d: LogData)
    ensures var e := ToRow(d, 0);
      && e.usuarioId.None? && e.accion == "CREAR_SUPERVISOR" && e.tabla == Some("Usuario")
      && NullNormalised(e.registroId, Some(u.id)) && e.ipAddress.Some? && e.userAgent.None? && e.exitoso
  {
    var ip := if client.ip.Some? && client.ip.value != "" then client.ip.value else "unknown";
    LogData(None, "CREAR_SUPERVISOR", Some("Usuario"), Some(u.id), None,
      Some([("email", Texto(u.email)), ("mensaje", Texto("Supervisor creado"))]),
      Some(ip), None, Some(true))
  }

  datatype Outcome = Outcome(resp: Response, usuarios: seq<Usuario>, logs: seq<AuditoriaLog>)

  /** POST on the tables as they are before the request. */
  function PostSpec(us: seq<Usuario>, logs: seq<AuditoriaLog>, header: Option<string>, verify: string -> Option<Payload>,
                    b: CreateBody, hash: string -> string, newId: string, now: int, client: Client): (o: Outcome)
    ensures us <= o.usuarios && |o.usuarios| <= |us| + 1
    ensures logs <= o.logs && |o.logs| == |logs| + (|o.usuarios| - |us|)
    ensures o.resp.CreatedUser? <==> |o.usuarios| == |us| + 1
    ensures Gate(header, verify).Some? ==> o.resp == Gate(header, verify).value
  {
    if Gate(header, verify).Some? then Outcome(Gate(header, verify).value, us, logs)
    else if !AllPresent(b) then Outcome(MISSING_FIELDS, us, logs)
    else if b.rol.value != "SUPERVISOR" then Outcome(ONLY_SUPERVISOR, us, logs)
    else if HasEmail(us, b.email.value) then Outcome(EMAIL_TAKEN, us, logs)
    else
      var u := NewSupervisor(b, newId, hash(b.password.value), now);
      Outcome(CreatedUser(Listing(u)), us + [u], logs + [ToRow(CrearSupervisorData(u, client), now)])
  }

  method Post(db: Db, header: Option<string>, verify: string -> Option<Payload>, b: CreateBody,
              hash: string -> string, newId: string, now: int, client: Client) returns (resp: Response)
    requires db.Valid() && !HasId(db.usuarios, newId)
    modifies db`usuarios, db`logs
    ensures db.Valid()
    ensures PostSpec(old(db.usuarios), old(db.logs), header, verify, b, hash, newId, now, client)
         == Outcome(resp, db.usuarios, db.logs)
  {
    var token := StrippedToken(header);
    if token.None? {
      return UNAUTHORIZED;
    }
    var usuario := verify(token.value);
    if usuario.None? || usuario.value.rol != ADMIN {
      return FORBIDDEN;
    }
    if !AllPresent(b) {
      return MISSING_FIELDS;
    }
    if b.rol.value != "SUPERVISOR" {
      return ONLY_SUPERVISOR;
    }
    var existente := IndexOfEmail(db.usuarios, b.email.value);
    if existente.Some? {
      return EMAIL_TAKEN;
    }
    var hashedPassword := hash(b.password.value);
    var nuevo := NewSupervisor(b, newId, hashedPassword, now);
    AppendKeepsUnique(db.usuarios, nuevo);
    db.usuarios := db.usuarios + [nuevo];
    var _ := RegistrarLog(db, CrearSupervisorData(nuevo, client), now, true);
    return CreatedUser(Listing(nuevo));
  }

  /**
   * Once the gate passes, the answer is 400 exactly when a field is missing,
   * the rol is not SUPERVISOR or the email is taken; otherwise a SUPERVISOR is
   * created whatever the password, with an audit row that has no actor.
   */
  lemma PostDecision(us: seq<Usuario>, logs: seq<AuditoriaLog>, header: Option<string>, verify: string -> Option<Payload>,
                     b: CreateBody, hash: string -> string, newId: string, now: int, client: Client)
    requires Gate(header, verify).None?
    ensures var o := PostSpec(us, logs, header, verify, b, hash, newId, now, client);
      && (Status(o.resp) == 400 <==> !AllPresent(b) || b.rol.value != "SUPERVISOR" || HasEmail(us, b.email.value))
      && (Status(o.resp) == 400 ==> o.usuarios == us && o.logs == logs)
      && (Status(o.resp) != 400 ==>
            && Status(o.resp) == 201
            && o.usuarios == us + [NewSupervisor(b, newId, hash(b.password.value), now)]
            && o.usuarios[|us|].rol == SUPERVISOR
            && o.logs[|logs|].usuarioId.None?
            && o.logs[|logs|].accion == "CREAR_SUPERVISOR")
  {
  }

  /** No strength rule applies: a one-character password is accepted. */
  lemma WeakPasswordAccepted(us: seq<Usuario>, logs: seq<AuditoriaLog>, header: Option<string>, verify: string -> Option<Payload>,
                             b: CreateBody, hash: string -> string, newId: string, now: int, client: Client)
    requires Gate(header, verify).None?
    requires AllPresent(b) && b.rol == Some("SUPERVISOR") && !HasEmail(us, b.email.value)
    requires b.password == Some("a")
    ensures PostSpec(us, logs, header, verify, b, hash, newId, now, client).resp.CreatedUser?
  {
  }
}
