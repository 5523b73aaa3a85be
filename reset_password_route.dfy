/**
 * POST /api/auth/reset-password: action 'request' issues a one-time code kept
 * in a process-wide map from email to (code, expiry); action 'verify' checks
 * the code and replaces the password. bcrypt's hash is the parameter `hash`,
 * the random draw behind the code the parameter `random`.
 */
module ResetPasswordRoute {
  import opened Wrappers
  import opened Text
  import opened Schema
  import opened Zod
  import opened Auditoria
  import opened Auth

  /** Codes live five minutes. */
  const OTP_TTL_MS: nat := 5 * 60 * 1000

  datatype OtpEntry = OtpEntry(otp: string, expiresAt: int)

  /** The module-level `otpStore`. */
  class OtpStore {
    var entries: map<string, OtpEntry>

    constructor ()
      ensures entries == map[]
    {
      entries := map[];
    }
  }

  /** The body as received: `action` selects the step, the other fields are absent or strings. */
  datatype ResetBody = ResetBody(action: Option<string>, email: Option<string>, otp: Option<string>,
                                 newPassword: Option<string>)

  datatype Response = Response(status: nat, success: bool, message: string)

  const INVALID_EMAIL := Response(400, false, "Email inválido")
  const IF_EXISTS := Response(200, true, "Si el email existe, recibirá un código OTP")
  const OTP_ISSUED := Response(200, true, "Código OTP generado (revisar consola en desarrollo)")
  const INVALID_DATA := Response(400, false, "Datos inválidos")
  const EMAIL_NOT_FOUND := Response(404, false, "Email no encontrado")
  const OTP_MISSING := Response(400, false, "Código OTP no encontrado o expirado")
  const OTP_EXPIRED := Response(400, false, "Código OTP expirado")
  const OTP_WRONG := Response(400, false, "Código OTP incorrecto")
  const PASSWORD_CHANGED := Response(200, true, "Contraseña actualizada exitosamente")
  const INVALID_ACTION := Response(400, false, "Acción no válida")

  /** requestOTPSchema. */
  predicate ValidRequestBody(b: ResetBody) {
    b.email.Some? && IsEmail(b.email.value)
  }

  /** verifyOTPSchema: an email, a code of exactly six characters, a new password of at least eight. */
  predicate ValidVerifyBody(b: ResetBody) {
    && b.email.Some? && IsEmail(b.email.value)
    && b.otp.Some? && |b.otp.value| == 6
    && b.newPassword.Some? && MinLen(b.newPassword.value, MIN_PASSWORD_LENGTH)
  }

  /** The verify step's checks on the stored entry, in the order the handler makes them. */
  datatype Decision = NoEntry | Expired | WrongCode | WeakPassword(message: string) | Accept

  function Decide(entry: Option<OtpEntry>, otp: string, newPassword: string, now: int): (d: Decision)
    ensures d == NoEntry <==> entry.None?
    ensures d == Expired <==> entry.Some? && now > entry.value.expiresAt
    ensures d == WrongCode <==> entry.Some? && now <= entry.value.expiresAt && entry.value.otp != otp
    ensures d.WeakPassword? <==>
      entry.Some? && now <= entry.value.expiresAt && entry.value.otp == otp && !IsStrong(newPassword)
    ensures d.WeakPassword? ==> d.message == ValidatePasswordStrength(newPassword).message
    ensures d == Accept <==>
      entry.Some? && now <= entry.value.expiresAt && entry.value.otp == otp && IsStrong(newPassword)
  {
    if entry.None? then NoEntry
    else if now > entry.value.expiresAt then Expired
    else if entry.value.otp != otp then WrongCode
    else
      var strength := ValidatePasswordStrength(newPassword);
      if !strength.valid then WeakPassword(strength.message) else Accept
  }

  function ResetLog(userId: string, paso: string, now: int): LogData {
    LogData(Some(userId), RESET_PASSWORD, None, None, Some("AUTENTICACION"),
      Some([("paso", Texto(paso)), ("timestamp", Instante(now))]), None, None, Some(true))
  }

  /** The outcome of one request: the response, the user and log tables, and the code store. */
  datatype Outcome = Outcome(resp: Response, usuarios: seq<Usuario>, logs: seq<AuditoriaLog>,
                             entries: map<string, OtpEntry>)

  /** The 'request' step on the state as it is before the request. */
  function RequestSpec(us: seq<Usuario>, logs: seq<AuditoriaLog>, entries: map<string, OtpEntry>,
                       body: ResetBody, now: int, random: real): (o: Outcome)
    requires 0.0 <= random < 1.0
    ensures o.usuarios == us && logs <= o.logs && |o.logs| <= |logs| + 1
    ensures forall e :: e in entries && (body.email.None? || e != body.email.value) ==> e in o.entries && o.entries[e] == entries[e]
  {
    if !ValidRequestBody(body) then Outcome(INVALID_EMAIL, us, logs, entries)
    else
      var email := body.email.value;
      match IndexOfEmail(us, email)
      case None => Outcome(IF_EXISTS, us, logs, entries)
      case Some(i) =>
        Outcome(OTP_ISSUED, us, logs + [ToRow(ResetLog(us[i].id, "solicitud_otp", now), now)],
          entries[email := OtpEntry(GenerateOtp(random), now + OTP_TTL_MS)])
  }

  /** The 'verify' step on the state as it is before the request. */
  function VerifySpec(us: seq<Usuario>, logs: seq<AuditoriaLog>, entries: map<string, OtpEntry>,
                      body: ResetBody, now: int, hash: string -> string): (o: Outcome)
    ensures |o.usuarios| == |us| && logs <= o.logs && |o.logs| <= |logs| + 1
    ensures o.entries.Keys <= entries.Keys
    ensures forall e :: e in o.entries ==> o.entries[e] == entries[e]
  {
    if !ValidVerifyBody(body) then Outcome(INVALID_DATA, us, logs, entries)
    else
      var email := body.email.value;
      match IndexOfEmail(us, email)
      case None => Outcome(EMAIL_NOT_FOUND, us, logs, entries)
      case Some(i) =>
        var stored := if email in entries then Some(entries[email]) else None;
        match Decide(stored, body.otp.value, body.newPassword.value, now)
        case NoEntry => Outcome(OTP_MISSING, us, logs, entries)
        case Expired => Outcome(OTP_EXPIRED, us, logs, entries - {email})
        case WrongCode => Outcome(OTP_WRONG, us, logs, entries)
        case WeakPassword(m) => Outcome(Response(400, false, m), us, logs, entries)
        case Accept =>
          var u' := us[i].(passwordHash := hash(body.newPassword.value), intentosFallidos := 0, bloqueadoHasta := None);
          Outcome(PASSWORD_CHANGED, us[i := u'], logs + [ToRow(ResetLog(us[i].id, "cambio_exitoso", now), now)],
            entries - {email})
  }

  /** The handler: dispatch on `action`, anything else is refused. */
  function ResetSpec(us: seq<Usuario>, logs: seq<AuditoriaLog>, entries: map<string, OtpEntry>,
                     body: ResetBody, now: int, random: real, hash: string -> string): (o: Outcome)
    requires 0.0 <= random < 1.0
    ensures body.action != Some("request") && body.action != Some("verify") ==>
      o == Outcome(INVALID_ACTION, us, logs, entries)
  {
    if body.action == Some("request") then RequestSpec(us, logs, entries, body, now, random)
    else if body.action == Some("verify") then VerifySpec(us, logs, entries, body, now, hash)
    else Outcome(INVALID_ACTION, us, logs, entries)
  }

  /** The 'request' step: issue and store a fresh code for a known email. */
  method RequestOtp(db: Db, store: OtpStore, body: ResetBody, now: int, random: real) returns (resp: Response)
    requires db.Valid()
    requires 0.0 <= random < 1.0
    modifies db`logs, store
    ensures db.Valid()
    ensures RequestSpec(old(db.usuarios), old(db.logs), old(store.entries), body, now, random)
         == Outcome(resp, db.usuarios, db.logs, store.entries)
  {
    if !ValidRequestBody(body) {
      return INVALID_EMAIL;
    }
    var email := body.email.value;
    var found := IndexOfEmail(db.usuarios, email);
    if found.None? {
      return IF_EXISTS;
    }
    var user := db.usuarios[found.value];
    var otp := GenerateOtp(random);
    store.entries := store.entries[email := OtpEntry(otp, now + OTP_TTL_MS)];
    var _ := RegistrarLog(db, ResetLog(user.id, "solicitud_otp", now), now, true);
    return OTP_ISSUED;
  }

  /** The 'verify' step: check the stored code, then replace the password and consume the code. */
  method VerifyOtp(db: Db, store: OtpStore, body: ResetBody, now: int, hash: string -> string) returns (resp: Response)
    requires db.Valid()
    modifies db`usuarios, db`logs, store
    ensures db.Valid()
    ensures VerifySpec(old(db.usuarios), old(db.logs), old(store.entries), body, now, hash)
         == Outcome(resp, db.usuarios, db.logs, store.entries)
  {
    if !ValidVerifyBody(body) {
      return INVALID_DATA;
    }
    var email, otp, newPassword := body.email.value, body.otp.value, body.newPassword.value;
    var found := IndexOfEmail(db.usuarios, email);
    if found.None? {
      return EMAIL_NOT_FOUND;
    }
    var i := found.value;
    var user := db.usuarios[i];
    if email !in store.entries {
      return OTP_MISSING;
    }
    var stored := store.entries[email];
    if now > stored.expiresAt {
      store.entries := store.entries - {email};
      return OTP_EXPIRED;
    }
    if stored.otp != otp {
      return OTP_WRONG;
    }
    var strength := ValidatePasswordStrength(newPassword);
    if !strength.valid {
      return Response(400, false, strength.message);
    }
    var passwordHash := hash(newPassword);
    var u' := user.(passwordHash := passwordHash, intentosFallidos := 0, bloqueadoHasta := None);
    UpdateKeepsUnique(db.usuarios, i, u');
    db.usuarios := db.usuarios[i := u'];
    store.entries := store.entries - {email};
    var _ := RegistrarLog(db, ResetLog(user.id, "cambio_exitoso", now), now, true);
    return PASSWORD_CHANGED;
  }

  /** POST: dispatch on `action`. */
  method Post(db: Db, store: OtpStore, body: ResetBody, now: int, random: real, hash: string -> string)
    returns (resp: Response)
    requires db.Valid()
    requires 0.0 <= random < 1.0
    modifies db`usuarios, db`logs, store
    ensures db.Valid()
    ensures ResetSpec(old(db.usuarios), old(db.logs), old(store.entries), body, now, random, hash)
         == Outcome(resp, db.usuarios, db.logs, store.entries)
  {
    if body.action == Some("request") {
      resp := RequestOtp(db, store, body, now, random);
    } else if body.action == Some("verify") {
      resp := VerifyOtp(db, store, body, now, hash);
    } else {
      resp := INVALID_ACTION;
    }
  }

  /** 'request' for an unknown email answers as if a code were sent, and stores and logs nothing. */
  lemma RequestUnknownEmailRevealsNothing(us: seq<Usuario>, logs: seq<AuditoriaLog>, entries: map<string, OtpEntry>,
                                          body: ResetBody, now: int, random: real)
    requires 0.0 <= random < 1.0
    requires ValidRequestBody(body) && !HasEmail(us, body.email.value)
    ensures RequestSpec(us, logs, entries, body, now, random) == Outcome(IF_EXISTS, us, logs, entries)
    ensures IF_EXISTS.status == 200 && IF_EXISTS.success
  {
  }

  /**
   * 'request' for a known email stores a six-digit code expiring in five
   * minutes, replacing any earlier code for that email, and logs the request.
   */
  lemma RequestKnownEmailStoresCode(us: seq<Usuario>, logs: seq<AuditoriaLog>, entries: map<string, OtpEntry>,
                                    body: ResetBody, now: int, random: real)
    requires 0.0 <= random < 1.0
    requires ValidRequestBody(body) && HasEmail(us, body.email.value)
    ensures var o := RequestSpec(us, logs, entries, body, now, random);
      var email := body.email.value;
      && o.resp == OTP_ISSUED
      && o.entries == entries[email := OtpEntry(GenerateOtp(random), now + OTP_TTL_MS)]
      && |o.entries[email].otp| == 6 && AllDigits(o.entries[email].otp)
      && o.entries[email].expiresAt == now + OTP_TTL_MS
      && |o.logs| == |logs| + 1 && o.logs[|logs|].accion == RESET_PASSWORD
  {
  }

  /** 'verify' for an unknown email is 404 before the store is read: nothing changes. */
  lemma VerifyUnknownEmail(us: seq<Usuario>, logs: seq<AuditoriaLog>, entries: map<string, OtpEntry>,
                           body: ResetBody, now: int, hash: string -> string)
    requires ValidVerifyBody(body) && !HasEmail(us, body.email.value)
    ensures VerifySpec(us, logs, entries, body, now, hash) == Outcome(EMAIL_NOT_FOUND, us, logs, entries)
  {
  }

  /** Malformed 'verify' input is refused with 400 and nothing changes. */
  lemma VerifyMalformed(us: seq<Usuario>, logs: seq<AuditoriaLog>, entries: map<string, OtpEntry>,
                        body: ResetBody, now: int, hash: string -> string)
    requires body.otp.Some? && |body.otp.value| != 6
    ensures VerifySpec(us, logs, entries, body, now, hash) == Outcome(INVALID_DATA, us, logs, entries)
  {
  }

  /** An expired code is refused and removed; a code is still good at its expiry instant. */
  lemma VerifyExpiry(us: seq<Usuario>, logs: seq<AuditoriaLog>, entries: map<string, OtpEntry>,
                     body: ResetBody, now: int, hash: string -> string)
    requires ValidVerifyBody(body) && HasEmail(us, body.email.value) && body.email.value in entries
    ensures var o := VerifySpec(us, logs, entries, body, now, hash);
      var e := entries[body.email.value];
      && (now > e.expiresAt ==> o.resp == OTP_EXPIRED && o.entries == entries - {body.email.value} && o.usuarios == us)
      && (now == e.expiresAt && e.otp == body.otp.value && IsStrong(body.newPassword.value) ==> o.resp == PASSWORD_CHANGED)
  {
  }

  /**
   * A wrong code changes nothing, so guesses are not limited: after any wrong
   * guess the right code works exactly as it would have before.
   */
  lemma WrongGuessesUnlimited(us: seq<Usuario>, logs: seq<AuditoriaLog>, entries: map<string, OtpEntry>,
                              guess: ResetBody, right: ResetBody, now: int, hash: string -> string)
    requires ValidVerifyBody(guess) && HasEmail(us, guess.email.value) && guess.email.value in entries
    requires now <= entries[guess.email.value].expiresAt && entries[guess.email.value].otp != guess.otp.value
    ensures var o := VerifySpec(us, logs, entries, guess, now, hash);
      && o == Outcome(OTP_WRONG, us, logs, entries)
      && VerifySpec(o.usuarios, o.logs, o.entries, right, now, hash) == VerifySpec(us, logs, entries, right, now, hash)
  {
  }

  /** The right code with a weak new password: 400 with the policy message, code kept, password unchanged. */
  lemma WeakNewPasswordKeepsCode(us: seq<Usuario>, logs: seq<AuditoriaLog>, entries: map<string, OtpEntry>,
                                 body: ResetBody, now: int, hash: string -> string)
    requires ValidVerifyBody(body) && HasEmail(us, body.email.value) && body.email.value in entries
    requires now <= entries[body.email.value].expiresAt && entries[body.email.value].otp == body.otp.value
    requires !IsStrong(body.newPassword.value)
    ensures VerifySpec(us, logs, entries, body, now, hash)
         == Outcome(Response(400, false, ValidatePasswordStrength(body.newPassword.value).message), us, logs, entries)
  {
  }

  /**
   * A successful verify replaces the hash, clears counter and lock, and
   * consumes the code: the same request made again is refused.
   */
  lemma SuccessConsumesCode(us: seq<Usuario>, logs: seq<AuditoriaLog>, entries: map<string, OtpEntry>,
                            body: ResetBody, now: int, later: int, hash: string -> string)
    requires UniqueUsers(us)
    requires ValidVerifyBody(body) && HasEmail(us, body.email.value) && body.email.value in entries
    requires now <= entries[body.email.value].expiresAt && entries[body.email.value].otp == body.otp.value
    requires IsStrong(body.newPassword.value)
    ensures var o := VerifySpec(us, logs, entries, body, now, hash);
      var i := IndexOfEmail(us, body.email.value).value;
      && o.resp == PASSWORD_CHANGED
      && o.usuarios == us[i := us[i].(passwordHash := hash(body.newPassword.value), intentosFallidos := 0, bloqueadoHasta := None)]
      && body.email.value !in o.entries
      && VerifySpec(o.usuarios, o.logs, o.entries, body, later, hash).resp == OTP_MISSING
  {
    var o := VerifySpec(us, logs, entries, body, now, hash);
    var i := IndexOfEmail(us, body.email.value).value;
    UpdateKeepsUnique(us, i, o.usuarios[i]);
    IndexOfOwnEmail(o.usuarios, i);
  }
}
