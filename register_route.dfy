/**
 * POST /api/auth/register: self-service sign-up. A chain of early returns
 * (schema, password confirmation, password strength, duplicate email), then
 * one user row and one CREAR_USUARIO audit row. bcrypt is the parameter
 * `hash`; the id the database gives the new row is the parameter `newId`.
 */
module RegisterRoute {
  import opened Wrappers
  import opened Schema
  import opened Zod
  import opened Auditoria
  import opened Auth

  /** The body as received: each field is absent or a string. */
  datatype RegisterBody = RegisterBody(
    email: Option<string>, password: Option<string>, confirmPassword: Option<string>,
    nombre: Option<string>, apellido: Option<string>, telefono: Option<string>, rol: Option<string>)

  /** The columns the handler selects from the created row: no password hash. */
  datatype NewUser = NewUser(
    id: string, email: string, rol: Rol,
    nombre: Option<string>, apellido: Option<string>, telefono: Option<string>, createdAt: int)

  datatype Response = Response(status: nat, success: bool, message: string, user: Option<NewUser>)

  const INVALID_DATA := Response(400, false, "Datos inválidos", None)
  const PASSWORDS_DIFFER := Response(400, false, "Las contraseñas no coinciden", None)
  const EMAIL_TAKEN := Response(409, false, "El email ya está registrado", None)

  /** An optional field: absent, or present and satisfying its rule. */
  predicate OptionalOk(v: Option<string>, ok: string -> bool) {
    v.None? || ok(v.value)
  }

  /** registerSchema. */
  predicate ValidBody(b: RegisterBody) {
    && b.email.Some? && IsEmail(b.email.value)
    && b.password.Some? && MinLen(b.password.value, 8)
    && b.confirmPassword.Some?
    && OptionalOk(b.nombre, s => MinLen(s, 2))
    && OptionalOk(b.apellido, s => MinLen(s, 2))
    && OptionalOk(b.telefono, TenDigits)
    && OptionalOk(b.rol, s => ParseRol(s).Some?)
  }

  /** `rol || 'DENUNCIANTE'` on a body that passed the schema. */
  function RolOf(b: RegisterBody): (r: Rol)
    requires ValidBody(b)
    ensures b.rol.None? ==> r == DENUNCIANTE
    ensures b.rol.Some? ==> RolName(r) == b.rol.value
  {
    if b.rol.Some? then ParseRol(b.rol.value).value else DENUNCIANTE
  }

  /** The row created for a body that passed every check. */
  function NewAccount(b: RegisterBody, newId: string, passwordHash: string, now: int): (u: Usuario)
    requires ValidBody(b)
    ensures u.id == newId && u.email == b.email.value && u.passwordHash == passwordHash
    ensures u.estado == ACTIVO && u.intentosFallidos == 0 && u.bloqueadoHasta.None?
    ensures NullNormalised(u.nombre, b.nombre) && NullNormalised(u.apellido, b.apellido)
    ensures NullNormalised(u.telefono, b.telefono)
  {
    Usuario(newId, b.email.value, passwordHash, OrNull(b.nombre), OrNull(b.apellido), OrNull(b.telefono),
      RolOf(b), ACTIVO, 0, None, now)
  }

  function Created(u: Usuario): NewUser {
    NewUser(u.id, u.email, u.rol, u.nombre, u.apellido, u.telefono, u.createdAt)
  }

  function CrearUsuarioData(u: Usuario, client: Client, now: int): (d: LogData)
    ensures var e := ToRow(d, now);
      NullNormalised(e.usuarioId, Some(u.id)) && e.accion == CREAR_USUARIO && e.recurso == Some("USUARIO:" + u.id) && e.exitoso
  {
    LogData(Some(u.id), CREAR_USUARIO, None, None, Some("USUARIO:" + u.id),
      Some([("email", Texto(u.email)), ("rol", Texto(RolName(u.rol))), ("timestamp", Instante(now))]),
      client.ip, client.ua, Some(true))
  }

  datatype Outcome = Outcome(resp: Response, usuarios: seq<Usuario>, logs: seq<AuditoriaLog>)

  /** The registration chain on the tables as they are before the request. */
  function RegisterSpec(us: seq<Usuario>, logs: seq<AuditoriaLog>, b: RegisterBody, now: int,
                        hash: string -> string, newId: string, client: Client): (o: Outcome)
    ensures us <= o.usuarios && |o.usuarios| <= |us| + 1
    ensures logs <= o.logs && |o.logs| == |logs| + (|o.usuarios| - |us|)
    ensures o.resp.success <==> |o.usuarios| == |us| + 1
  {
    if !ValidBody(b) then Outcome(INVALID_DATA, us, logs)
    else if b.password.value != b.confirmPassword.value then Outcome(PASSWORDS_DIFFER, us, logs)
    else
      var strength := ValidatePasswordStrength(b.password.value);
      if !strength.valid then Outcome(Response(400, false, strength.message, None), us, logs)
      else if HasEmail(us, b.email.value) then Outcome(EMAIL_TAKEN, us, logs)
      else
        var u := NewAccount(b, newId, hash(b.password.value), now);
        Outcome(Response(200, true, "Usuario registrado exitosamente", Some(Created(u))),
          us + [u], logs + [ToRow(CrearUsuarioData(u, client, now), now)])
  }

  /** The handler itself. `newId` is fresh: the database never reuses an id. */
  method Register(db: Db, b: RegisterBody, now: int, hash: string -> string, newId: string, client: Client)
    returns (resp: Response)
    requires db.Valid() && !HasId(db.usuarios, newId)
    modifies db`usuarios, db`logs
    ensures db.Valid()
    ensures RegisterSpec(old(db.usuarios), old(db.logs), b, now, hash, newId, client)
         == Outcome(resp, db.usuarios, db.logs)
  {
    if !ValidBody(b) {
      return INVALID_DATA;
    }
    var email, password := b.email.value, b.password.value;
    if password != b.confirmPassword.value {
      return PASSWORDS_DIFFER;
    }
    var passwordValidation := ValidatePasswordStrength(password);
    if !passwordValidation.valid {
      return Response(400, false, passwordValidation.message, None);
    }
    var existing := IndexOfEmail(db.usuarios, email);
    if existing.Some? {
      return EMAIL_TAKEN;
    }
    var passwordHash := hash(password);
    var newUser := NewAccount(b, newId, passwordHash, now);
    AppendKeepsUnique(db.usuarios, newUser);
    db.usuarios := db.usuarios + [newUser];
    var _ := RegistrarLog(db, CrearUsuarioData(newUser, client, now), now, true);
    return Response(200, true, "Usuario registrado exitosamente", Some(Created(newUser)));
  }

  /** The first failing check decides the answer, in the order schema, confirmation, strength, duplicate. */
  lemma ChecksInOrder(us: seq<Usuario>, logs: seq<AuditoriaLog>, b: RegisterBody, now: int,
                      hash: string -> string, newId: string, client: Client)
    ensures var o := RegisterSpec(us, logs, b, now, hash, newId, client);
      && (!ValidBody(b) ==> o == Outcome(INVALID_DATA, us, logs))
      && (ValidBody(b) && b.password.value != b.confirmPassword.value ==> o == Outcome(PASSWORDS_DIFFER, us, logs))
      && (ValidBody(b) && b.password.value == b.confirmPassword.value && !IsStrong(b.password.value) ==>
            o.resp.status == 400 && o.resp.message == ValidatePasswordStrength(b.password.value).message
            && o.usuarios == us && o.logs == logs)
      && ((ValidBody(b) && b.password.value == b.confirmPassword.value && IsStrong(b.password.value)
            && HasEmail(us, b.email.value)) ==> o == Outcome(EMAIL_TAKEN, us, logs))
  {
  }

  /**
   * A successful registration appends exactly the new account (rol as given or
   * DENUNCIANTE, ACTIVO, no failures, no lock, the hashed password) and one
   * CREAR_USUARIO row, and keeps emails and ids unique.
   */
  lemma SuccessCreatesAccount(us: seq<Usuario>, logs: seq<AuditoriaLog>, b: RegisterBody, now: int,
                              hash: string -> string, newId: string, client: Client)
    requires UniqueUsers(us) && !HasId(us, newId)
    requires RegisterSpec(us, logs, b, now, hash, newId, client).resp.success
    ensures var o := RegisterSpec(us, logs, b, now, hash, newId, client);
      && ValidBody(b) && IsStrong(b.password.value) && !HasEmail(us, b.email.value)
      && o.resp.status == 200
      && o.usuarios == us + [NewAccount(b, newId, hash(b.password.value), now)]
      && o.usuarios[|us|].rol == RolOf(b)
      && |o.logs| == |logs| + 1 && o.logs[|logs|].accion == CREAR_USUARIO
      && NullNormalised(o.logs[|logs|].usuarioId, Some(newId))
      && o.resp.user == Some(Created(o.usuarios[|us|]))
      && UniqueUsers(o.usuarios)
  {
    var u := NewAccount(b, newId, hash(b.password.value), now);
    AppendKeepsUnique(us, u);
  }

  /** Anyone can register as ADMIN: the rol field of the body is stored as given. */
  lemma SelfRegistrationAsAdmin(us: seq<Usuario>, logs: seq<AuditoriaLog>, b: RegisterBody, now: int,
                                hash: string -> string, newId: string, client: Client)
    requires ValidBody(b) && b.rol == Some("ADMIN")
    requires b.password.value == b.confirmPassword.value && IsStrong(b.password.value)
    requires !HasEmail(us, b.email.value)
    ensures var o := RegisterSpec(us, logs, b, now, hash, newId, client);
      o.resp.success && o.usuarios[|us|].rol == ADMIN
  {
    assert RolName(RolOf(b)) == "ADMIN";
  }

  /** An email already in the table is never registered twice. */
  lemma DuplicateEmailCreatesNothing(us: seq<Usuario>, logs: seq<AuditoriaLog>, b: RegisterBody, now: int,
                                     hash: string -> string, newId: string, client: Client)
    requires b.email.Some? && HasEmail(us, b.email.value)
    ensures var o := RegisterSpec(us, logs, b, now, hash, newId, client);
      !o.resp.success && o.usuarios == us && o.logs == logs
  {
  }
}
