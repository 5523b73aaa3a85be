/**
 * POST /api/auth/login: a fixed chain of early returns (body check, lookup by
 * email, lock check with lazy unlock, inactive check, password check) that
 * updates the account and the audit table. bcrypt's compare is the parameter
 * `passwordMatches`, JWT signing the parameter `sign`, and the environment
 * variable JWT_EXPIRES_IN the parameter `jwtExpiresIn`.
 */
module LoginRoute {
  import opened Wrappers
  import opened Schema
  import opened Zod
  import opened Auditoria
  import opened Auth

  /** The body as received: each field is absent or a string. */
  datatype LoginBody = LoginBody(email: Option<string>, password: Option<string>)

  /** The account fields the response returns: the password hash is not among them. */
  datatype UserSummary = UserSummary(
    id: string, email: string, rol: Rol,
    nombre: Option<string>, apellido: Option<string>, telefono: Option<string>)

  datatype LoginData = LoginData(user: UserSummary, token: string, expiresIn: string)

  datatype Response = Response(status: nat, message: string, data: Option<LoginData>)

  /** `process.env.JWT_EXPIRES_IN || '7d'`: the setting when it is non-empty, "7d" otherwise. */
  function ExpiresIn(setting: Option<string>): (e: string)
    ensures setting.Some? && setting.value != "" ==> e == setting.value
    ensures setting.None? || setting == Some("") ==> e == "7d"
  {
    if setting.Some? && setting.value != "" then setting.value else "7d"
  }

  const BAD_REQUEST := Response(400, "Datos inválidos", None)
  const INVALID_CREDENTIALS := Response(401, "Credenciales inválidas", None)
  const ACCOUNT_LOCKED := Response(403, "Cuenta bloqueada temporalmente debido a múltiples intentos fallidos. Intente más tarde.", None)
  const ACCOUNT_INACTIVE := Response(403, "Cuenta inactiva. Contacte al administrador.", None)

  /** loginSchema: a well-formed email and a non-empty password. */
  predicate ValidBody(b: LoginBody) {
    b.email.Some? && IsEmail(b.email.value) && b.password.Some? && MinLen(b.password.value, 1)
  }

  function Summary(u: Usuario): UserSummary {
    UserSummary(u.id, u.email, u.rol, u.nombre, u.apellido, u.telefono)
  }

  /**
   * The foreign primitives the handler calls, bcrypt's compare and JWT signing,
   * and the environment variable JWT_EXPIRES_IN the success response echoes.
   */
  datatype Primitives = Primitives(passwordMatches: (string, string) -> bool, sign: Payload -> string,
                                   jwtExpiresIn: Option<string>)

  /** The outcome of one login request: the response and the two tables afterwards. */
  datatype Outcome = Outcome(resp: Response, usuarios: seq<Usuario>, logs: seq<AuditoriaLog>)

  /** The login decision chain on the tables as they are before the request. */
  function LoginSpec(us: seq<Usuario>, logs: seq<AuditoriaLog>, body: LoginBody, now: int,
                     prim: Primitives, client: Client): (o: Outcome)
    ensures |o.usuarios| == |us| && logs <= o.logs && |o.logs| <= |logs| + 2
    ensures forall j :: 0 <= j < |us| && (body.email.None? || us[j].email != body.email.value) ==> o.usuarios[j] == us[j]
  {
    if !ValidBody(body) then Outcome(BAD_REQUEST, us, logs)
    else
      var email := body.email.value;
      match IndexOfEmail(us, email)
      case None =>
        Outcome(INVALID_CREDENTIALS, us, logs + [ToRow(LoginFallidoData(email, "Usuario no encontrado", client.ip, client.ua, now), now)])
      case Some(i) =>
        if IsLockedAt(us[i], now) then Outcome(ACCOUNT_LOCKED, us, logs)
        else Unlocked(us[i := LazyUnlock(us[i], now)], logs, i, email, body.password.value, now, prim, client)
  }

  /** The rest of the chain once account `i` is known not to be locked (and has been lazily unlocked). */
  function Unlocked(us: seq<Usuario>, logs: seq<AuditoriaLog>, i: nat, email: string, password: string, now: int,
                    prim: Primitives, client: Client): (o: Outcome)
    requires i < |us|
    ensures |o.usuarios| == |us| && logs <= o.logs && |o.logs| <= |logs| + 2
    ensures forall j :: 0 <= j < |us| && j != i ==> o.usuarios[j] == us[j]
  {
    var u := us[i];
    if u.estado == INACTIVO || u.estado == BLOQUEADO then
      Outcome(ACCOUNT_INACTIVE, us, logs + [ToRow(LoginFallidoData(email, "Cuenta inactiva o bloqueada", client.ip, client.ua, now), now)])
    else if !prim.passwordMatches(password, u.passwordHash) then
      var u' := AfterFailure(u, now);
      Outcome(INVALID_CREDENTIALS, us[i := u'],
        logs + [FailedLoginRow(u.id, u'.intentosFallidos, now),
                ToRow(LoginFallidoData(email, "Contraseña incorrecta", client.ip, client.ua, now), now)])
    else
      var token := prim.sign(Payload(u.id, u.email, u.rol));
      Outcome(Response(200, "Login exitoso", Some(LoginData(Summary(u), token, ExpiresIn(prim.jwtExpiresIn)))),
        us[i := AfterReset(u)], logs + [ToRow(LoginExitosoData(u.id, client.ip, client.ua, now), now)])
  }

  /** The handler itself, step by step on the database. */
  method Login(db: Db, body: LoginBody, now: int, prim: Primitives, client: Client) returns (resp: Response)
    requires db.Valid()
    modifies db`usuarios, db`logs
    ensures db.Valid()
    ensures LoginSpec(old(db.usuarios), old(db.logs), body, now, prim, client)
         == Outcome(resp, db.usuarios, db.logs)
  {
    if !ValidBody(body) {
      return BAD_REQUEST;
    }
    var email, password := body.email.value, body.password.value;
    var ip, ua := client.ip, client.ua;
    var found := IndexOfEmail(db.usuarios, email);
    if found.None? {
      var _ := RegistrarLog(db, LoginFallidoData(email, "Usuario no encontrado", ip, ua, now), now, true);
      return INVALID_CREDENTIALS;
    }
    var i := found.value;
    IndexOfOwnId(db.usuarios, i);
    ghost var us0, logs0 := db.usuarios, db.logs;
    var locked := IsUserLocked(db, db.usuarios[i].id, now);
    if locked {
      return ACCOUNT_LOCKED;
    }
    assert LoginSpec(us0, logs0, body, now, prim, client) == Unlocked(db.usuarios, db.logs, i, email, password, now, prim, client);
    var user := db.usuarios[i];
    if user.estado == INACTIVO || user.estado == BLOQUEADO {
      var _ := RegistrarLog(db, LoginFallidoData(email, "Cuenta inactiva o bloqueada", ip, ua, now), now, true);
      return ACCOUNT_INACTIVE;
    }
    IndexOfOwnId(db.usuarios, i);
    if !prim.passwordMatches(password, user.passwordHash) {
      RecordFailedLogin(db, user.id, now);
      var _ := RegistrarLog(db, LoginFallidoData(email, "Contraseña incorrecta", ip, ua, now), now, true);
      return INVALID_CREDENTIALS;
    }
    var _ := ResetFailedLogins(db, user.id);
    var _ := RegistrarLog(db, LoginExitosoData(user.id, ip, ua, now), now, true);
    var token := prim.sign(Payload(user.id, user.email, user.rol));
    return Response(200, "Login exitoso", Some(LoginData(Summary(user), token, ExpiresIn(prim.jwtExpiresIn))));
  }

  /** Malformed input is refused with 400 before any account is looked up. */
  lemma MalformedBodyRejectedFirst(us: seq<Usuario>, logs: seq<AuditoriaLog>, body: LoginBody, now: int,
                                   prim: Primitives, client: Client)
    requires !ValidBody(body)
    ensures LoginSpec(us, logs, body, now, prim, client) == Outcome(BAD_REQUEST, us, logs)
  {
  }

  /**
   * An unknown email and a wrong password on an active account get the same
   * response, so the response does not reveal which emails have accounts.
   */
  lemma UnknownEmailLooksLikeWrongPassword(us: seq<Usuario>, logs: seq<AuditoriaLog>, unknown: LoginBody,
                                           wrong: LoginBody, now: int, prim: Primitives, client: Client)
    requires ValidBody(unknown) && !HasEmail(us, unknown.email.value)
    requires ValidBody(wrong) && HasEmail(us, wrong.email.value)
    requires var u := us[IndexOfEmail(us, wrong.email.value).value];
      u.estado == ACTIVO && !IsLockedAt(u, now) && !prim.passwordMatches(wrong.password.value, u.passwordHash)
    ensures LoginSpec(us, logs, unknown, now, prim, client).resp == INVALID_CREDENTIALS
    ensures LoginSpec(us, logs, wrong, now, prim, client).resp == INVALID_CREDENTIALS
  {
  }

  /**
   * A locked account is refused with 403 before the password is compared:
   * counter, lock and audit table stay as they are, whatever the password.
   */
  lemma LockedAccountUntouched(us: seq<Usuario>, logs: seq<AuditoriaLog>, body: LoginBody, now: int,
                               prim: Primitives, client: Client)
    requires ValidBody(body) && HasEmail(us, body.email.value)
    requires IsLockedAt(us[IndexOfEmail(us, body.email.value).value], now)
    ensures LoginSpec(us, logs, body, now, prim, client) == Outcome(ACCOUNT_LOCKED, us, logs)
  {
  }

  /**
   * A BLOQUEADO account always gets the temporary-lock response: the lock check
   * comes first, so the inactive branch's BLOQUEADO test never fires.
   */
  lemma BlockedAccountNeverReachesInactiveBranch(us: seq<Usuario>, logs: seq<AuditoriaLog>, body: LoginBody,
                                                  now: int, prim: Primitives, client: Client)
    requires ValidBody(body) && HasEmail(us, body.email.value)
    requires us[IndexOfEmail(us, body.email.value).value].estado == BLOQUEADO
    ensures LoginSpec(us, logs, body, now, prim, client).resp == ACCOUNT_LOCKED
    ensures LoginSpec(us, logs, body, now, prim, client).resp != ACCOUNT_INACTIVE
  {
  }

  /** An INACTIVO account that is not locked: 403, one failed-login row, no failure counted. */
  lemma InactiveAccountRefused(us: seq<Usuario>, logs: seq<AuditoriaLog>, body: LoginBody, now: int,
                               prim: Primitives, client: Client)
    requires ValidBody(body) && HasEmail(us, body.email.value)
    requires var u := us[IndexOfEmail(us, body.email.value).value];
      u.estado == INACTIVO && !IsLockedAt(u, now)
    ensures var i := IndexOfEmail(us, body.email.value).value;
      var o := LoginSpec(us, logs, body, now, prim, client);
      && o.resp == ACCOUNT_INACTIVE
      && o.usuarios == us[i := LazyUnlock(us[i], now)]
      && o.usuarios[i].intentosFallidos <= us[i].intentosFallidos
      && |o.logs| == |logs| + 1 && o.logs[..|logs|] == logs
      && o.logs[|logs|].accion == LOGIN_FALLIDO && !o.logs[|logs|].exitoso
  {
    var o := LoginSpec(us, logs, body, now, prim, client);
    assert o.logs[..|logs|] == logs;
  }

  /**
   * A wrong password on an active, unlocked account: 401, one more failure on
   * the account, and two LOGIN_FALLIDO rows, the first naming the account and
   * the second with no actor.
   */
  lemma WrongPasswordCounted(us: seq<Usuario>, logs: seq<AuditoriaLog>, body: LoginBody, now: int,
                             prim: Primitives, client: Client)
    requires ValidBody(body) && HasEmail(us, body.email.value)
    requires var u := us[IndexOfEmail(us, body.email.value).value];
      u.estado == ACTIVO && !IsLockedAt(u, now) && !prim.passwordMatches(body.password.value, u.passwordHash)
    ensures var i := IndexOfEmail(us, body.email.value).value;
      var o := LoginSpec(us, logs, body, now, prim, client);
      && o.resp == INVALID_CREDENTIALS
      && o.usuarios == us[i := AfterFailure(LazyUnlock(us[i], now), now)]
      && o.usuarios[i].intentosFallidos == LazyUnlock(us[i], now).intentosFallidos + 1
      && |o.logs| == |logs| + 2 && o.logs[..|logs|] == logs
      && o.logs[|logs|].accion == LOGIN_FALLIDO && o.logs[|logs|].usuarioId == Some(us[i].id)
      && o.logs[|logs| + 1].accion == LOGIN_FALLIDO && o.logs[|logs| + 1].usuarioId.None?
  {
    var o := LoginSpec(us, logs, body, now, prim, client);
    assert o.logs[..|logs|] == logs;
  }

  /**
   * The right password on an active, unlocked account: 200 with a token signed
   * for the account, counter and lock cleared, one LOGIN row.
   */
  lemma CorrectPasswordLogsIn(us: seq<Usuario>, logs: seq<AuditoriaLog>, body: LoginBody, now: int,
                              prim: Primitives, client: Client)
    requires ValidBody(body) && HasEmail(us, body.email.value)
    requires var u := us[IndexOfEmail(us, body.email.value).value];
      u.estado == ACTIVO && !IsLockedAt(u, now) && prim.passwordMatches(body.password.value, u.passwordHash)
    ensures var i := IndexOfEmail(us, body.email.value).value;
      var u := us[i];
      var o := LoginSpec(us, logs, body, now, prim, client);
      && o.resp.status == 200
      && o.resp.data == Some(LoginData(Summary(u), prim.sign(Payload(u.id, u.email, u.rol)), ExpiresIn(prim.jwtExpiresIn)))
      && o.usuarios == us[i := AfterReset(u)]
      && o.usuarios[i].intentosFallidos == 0 && o.usuarios[i].bloqueadoHasta.None?
      && o.logs == logs + [ToRow(LoginExitosoData(u.id, client.ip, client.ua, now), now)]
      && o.logs[|logs|].accion == LOGIN && o.logs[|logs|].exitoso
  {
    var i := IndexOfEmail(us, body.email.value).value;
    var u := us[i];
    assert AfterReset(LazyUnlock(u, now)) == AfterReset(u);
    assert Summary(LazyUnlock(u, now)) == Summary(u);
  }

  /** The account after `k` failures and no successful login, starting from a clean record. */
  function AfterFailures(u: Usuario, k: nat, now: int): Usuario {
    u.(intentosFallidos := k, bloqueadoHasta := if k >= MAX_LOGIN_ATTEMPTS then Some(now + LOCKOUT_MS) else None)
  }

  /** One more wrong password on an active account with k < 5 failures behind it and no lock. */
  lemma WrongPasswordStep(us: seq<Usuario>, logs: seq<AuditoriaLog>, i: nat, wrong: LoginBody, k: nat,
                          now: int, prim: Primitives, client: Client)
    requires UniqueUsers(us) && i < |us| && k < MAX_LOGIN_ATTEMPTS
    requires us[i].estado == ACTIVO && us[i].intentosFallidos == 0 && us[i].bloqueadoHasta.None?
    requires ValidBody(wrong) && wrong.email == Some(us[i].email)
    requires !prim.passwordMatches(wrong.password.value, us[i].passwordHash)
    ensures UniqueUsers(us[i := AfterFailures(us[i], k, now)])
    ensures LoginSpec(us[i := AfterFailures(us[i], k, now)], logs, wrong, now, prim, client).usuarios
         == us[i := AfterFailures(us[i], k + 1, now)]
  {
    var x := AfterFailures(us[i], k, now);
    var us1 := us[i := x];
    UpdateKeepsUnique(us, i, x);
    IndexOfOwnEmail(us1, i);
    assert us1[i := LazyUnlock(x, now)] == us1;
    assert us1[i := AfterFailure(x, now)] == us[i := AfterFailures(us[i], k + 1, now)];
  }

  /** Once locked by five failures, the right password is refused until the lock runs out. */
  lemma LockedUntilExpiry(us: seq<Usuario>, logs: seq<AuditoriaLog>, i: nat, right: LoginBody,
                          now: int, during: int, after: int, prim: Primitives, client: Client)
    requires UniqueUsers(us) && i < |us|
    requires us[i].estado == ACTIVO
    requires ValidBody(right) && right.email == Some(us[i].email)
    requires prim.passwordMatches(right.password.value, us[i].passwordHash)
    requires now <= during < now + LOCKOUT_MS <= after
    ensures var locked := us[i := AfterFailures(us[i], MAX_LOGIN_ATTEMPTS, now)];
      && LoginSpec(locked, logs, right, during, prim, client) == Outcome(ACCOUNT_LOCKED, locked, logs)
      && LoginSpec(locked, logs, right, after, prim, client).resp.status == 200
      && LoginSpec(locked, logs, right, after, prim, client).usuarios[i].intentosFallidos == 0
  {
    var locked := us[i := AfterFailures(us[i], MAX_LOGIN_ATTEMPTS, now)];
    UpdateKeepsUnique(us, i, locked[i]);
    IndexOfOwnEmail(locked, i);
  }

  /**
   * Five wrong passwords in a row lock the account: the right password is then
   * refused with 403 while the lock lasts, and accepted once it has run out,
   * which clears the counter.
   */
  lemma LockoutScenario(us: seq<Usuario>, logs: seq<AuditoriaLog>, i: nat, wrong: LoginBody, right: LoginBody,
                        now: int, during: int, after: int, prim: Primitives, client: Client)
    requires UniqueUsers(us) && i < |us|
    requires us[i].estado == ACTIVO && us[i].intentosFallidos == 0 && us[i].bloqueadoHasta.None?
    requires ValidBody(wrong) && wrong.email == Some(us[i].email)
    requires !prim.passwordMatches(wrong.password.value, us[i].passwordHash)
    requires ValidBody(right) && right.email == Some(us[i].email)
    requires prim.passwordMatches(right.password.value, us[i].passwordHash)
    requires now <= during < now + LOCKOUT_MS <= after
    ensures var o1 := LoginSpec(us, logs, wrong, now, prim, client);
      var o2 := LoginSpec(o1.usuarios, o1.logs, wrong, now, prim, client);
      var o3 := LoginSpec(o2.usuarios, o2.logs, wrong, now, prim, client);
      var o4 := LoginSpec(o3.usuarios, o3.logs, wrong, now, prim, client);
      var o5 := LoginSpec(o4.usuarios, o4.logs, wrong, now, prim, client);
      && o5.usuarios[i].intentosFallidos == MAX_LOGIN_ATTEMPTS
      && LoginSpec(o5.usuarios, o5.logs, right, during, prim, client) == Outcome(ACCOUNT_LOCKED, o5.usuarios, o5.logs)
      && LoginSpec(o5.usuarios, o5.logs, right, after, prim, client).resp.status == 200
      && LoginSpec(o5.usuarios, o5.logs, right, after, prim, client).usuarios[i].intentosFallidos == 0
  {
    var o1 := LoginSpec(us, logs, wrong, now, prim, client);
    assert o1.usuarios == us[i := AfterFailures(us[i], 1, now)] by {
      assert us[i := AfterFailures(us[i], 0, now)] == us;
      WrongPasswordStep(us, logs, i, wrong, 0, now, prim, client);
    }
    var o2 := LoginSpec(o1.usuarios, o1.logs, wrong, now, prim, client);
    assert o2.usuarios == us[i := AfterFailures(us[i], 2, now)] by {
      WrongPasswordStep(us, o1.logs, i, wrong, 1, now, prim, client);
    }
    var o3 := LoginSpec(o2.usuarios, o2.logs, wrong, now, prim, client);
    assert o3.usuarios == us[i := AfterFailures(us[i], 3, now)] by {
      WrongPasswordStep(us, o2.logs, i, wrong, 2, now, prim, client);
    }
    var o4 := LoginSpec(o3.usuarios, o3.logs, wrong, now, prim, client);
    assert o4.usuarios == us[i := AfterFailures(us[i], 4, now)] by {
      WrongPasswordStep(us, o3.logs, i, wrong, 3, now, prim, client);
    }
    var o5 := LoginSpec(o4.usuarios, o4.logs, wrong, now, prim, client);
    assert o5.usuarios == us[i := AfterFailures(us[i], 5, now)] by {
      WrongPasswordStep(us, o4.logs, i, wrong, 4, now, prim, client);
    }
    LockedUntilExpiry(us, o5.logs, i, right, now, during, after, prim, client);
  }
}
