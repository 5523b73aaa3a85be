/**
 * The authentication library: password policy, login lockout bookkeeping on
 * the user table, one-time codes, anonymous case codes and role checks.
 * bcrypt and JWT are not modelled here; the routes take them as parameters.
 */
module Auth {
  import opened Wrappers
  import opened Text
  import opened Schema
  import Auditoria

  // ---------------------------------------------------------------------------
  // Password strength
  // ---------------------------------------------------------------------------

  /** The policy's checks, in the order validatePasswordStrength applies them. */
  datatype PasswordRule = MinLength | Upper | Lower | Digit | Special

  const RULES: seq<PasswordRule> := [MinLength, Upper, Lower, Digit, Special]

  const MIN_PASSWORD_LENGTH: nat := 8

  /** The class `[!@#$%^&*(),.?":{}|<>]`. */
  const SPECIALS: string := "!@#$%^&*(),.?\":{}|<>"

  /** A one-character regular-expression class. */
  datatype CharClass = Range(lo: char, hi: char) | OneOf(chars: string)

  predicate InClass(c: char, cls: CharClass) {
    match cls
    case Range(lo, hi) => lo <= c <= hi
    case OneOf(chars) => c in chars
  }

  /** `/[...]/.test(p)`: some character of `p` is in the class. */
  function Test(p: string, cls: CharClass): (b: bool)
    ensures b <==> exists i :: 0 <= i < |p| && InClass(p[i], cls)
  {
    if p == [] then false
    else if InClass(p[0], cls) then true
    else
      var b := Test(p[1..], cls);
      assert b ==> exists i :: 0 <= i < |p| && InClass(p[i], cls) by {
        if b {
          var i :| 0 <= i < |p| - 1 && InClass(p[1..][i], cls);
          assert p[i + 1] == p[1..][i];
        }
      }
      assert !b ==> forall i :: 0 <= i < |p| ==> !InClass(p[i], cls) by {
        if !b {
          forall i | 1 <= i < |p| ensures !InClass(p[i], cls) {
            assert p[i] == p[1..][i - 1];
          }
        }
      }
      b
  }

  /** What each rule demands, stated directly on the characters of the password. */
  ghost predicate Satisfies(p: string, rule: PasswordRule) {
    match rule
    case MinLength => |p| >= MIN_PASSWORD_LENGTH
    case Upper => exists i :: 0 <= i < |p| && 'A' <= p[i] <= 'Z'
    case Lower => exists i :: 0 <= i < |p| && 'a' <= p[i] <= 'z'
    case Digit => exists i :: 0 <= i < |p| && '0' <= p[i] <= '9'
    case Special => exists i :: 0 <= i < |p| && p[i] in SPECIALS
  }

  ghost predicate IsStrong(p: string) {
    forall k :: 0 <= k < |RULES| ==> Satisfies(p, RULES[k])
  }

  /** Rule `k` is the first rule, in policy order, that `p` breaks. */
  ghost predicate FirstFailing(p: string, k: nat) {
    && k < |RULES|
    && !Satisfies(p, RULES[k])
    && forall j :: 0 <= j < k ==> Satisfies(p, RULES[j])
  }

  function RuleMessage(rule: PasswordRule): string {
    match rule
    case MinLength => "La contraseña debe tener al menos 8 caracteres"
    case Upper => "Debe incluir al menos una letra mayúscula"
    case Lower => "Debe incluir al menos una letra minúscula"
    case Digit => "Debe incluir al menos un número"
    case Special => "Debe incluir al menos un carácter especial (!@#$%^&*...)"
  }

  const VALID_PASSWORD_MESSAGE := "Contraseña válida"

  datatype Strength = Strength(valid: bool, message: string)

  /**
   * validatePasswordStrength: valid exactly when every rule holds; otherwise the
   * message names the first rule broken.
   */
  function ValidatePasswordStrength(p: string): (r: Strength)
    ensures r.valid <==> IsStrong(p)
    ensures r.valid ==> r.message == VALID_PASSWORD_MESSAGE
    ensures !r.valid ==> exists k: nat :: FirstFailing(p, k) && r.message == RuleMessage(RULES[k])
  {
    if |p| < MIN_PASSWORD_LENGTH then
      assert FirstFailing(p, 0);
      Strength(false, RuleMessage(MinLength))
    else if !Test(p, Range('A', 'Z')) then
      assert FirstFailing(p, 1);
      Strength(false, RuleMessage(Upper))
    else if !Test(p, Range('a', 'z')) then
      assert FirstFailing(p, 2);
      Strength(false, RuleMessage(Lower))
    else if !Test(p, Range('0', '9')) then
      assert FirstFailing(p, 3);
      Strength(false, RuleMessage(Digit))
    else if !Test(p, OneOf(SPECIALS)) then
      assert FirstFailing(p, 4);
      Strength(false, RuleMessage(Special))
    else
      Strength(true, VALID_PASSWORD_MESSAGE)
  }

  // ---------------------------------------------------------------------------
  // Lockout
  // ---------------------------------------------------------------------------

  const MAX_LOGIN_ATTEMPTS: nat := 5

  const LOCKOUT_DURATION_MINUTES: nat := 15

  const LOCKOUT_MS: nat := LOCKOUT_DURATION_MINUTES * 60 * 1000

  /** An account refuses logins: permanently blocked, or under a lock that ends after `now`. */
  predicate IsLockedAt(u: Usuario, now: int) {
    u.estado == BLOQUEADO || (u.bloqueadoHasta.Some? && u.bloqueadoHasta.value > now)
  }

  /** The reset isUserLocked applies to an account whose temporary lock has run out. */
  function LazyUnlock(u: Usuario, now: int): (r: Usuario)
    ensures IsLockedAt(u, now) || u.bloqueadoHasta.None? ==> r == u
    ensures !IsLockedAt(u, now) ==> !IsLockedAt(r, now) && r.bloqueadoHasta.None?
    ensures !IsLockedAt(u, now) && u.bloqueadoHasta.Some? ==> r.intentosFallidos == 0
    ensures r == u.(intentosFallidos := r.intentosFallidos, bloqueadoHasta := r.bloqueadoHasta)
  {
    if u.estado != BLOQUEADO && u.bloqueadoHasta.Some? && u.bloqueadoHasta.value <= now
    then u.(bloqueadoHasta := None, intentosFallidos := 0)
    else u
  }

  /** The account after recordFailedLogin at `now`. */
  function AfterFailure(u: Usuario, now: int): (r: Usuario)
    ensures r.intentosFallidos == u.intentosFallidos + 1
    ensures r.bloqueadoHasta.Some? <==> r.intentosFallidos >= MAX_LOGIN_ATTEMPTS
    ensures r.bloqueadoHasta.Some? ==> r.bloqueadoHasta.value == now + LOCKOUT_MS
    ensures r == u.(intentosFallidos := r.intentosFallidos, bloqueadoHasta := r.bloqueadoHasta)
  {
    var n := u.intentosFallidos + 1;
    u.(intentosFallidos := n, bloqueadoHasta := if n >= MAX_LOGIN_ATTEMPTS then Some(now + LOCKOUT_MS) else None)
  }

  /** The account after resetFailedLogins. */
  function AfterReset(u: Usuario): (r: Usuario)
    ensures r.intentosFallidos == 0 && r.bloqueadoHasta.None?
    ensures forall now: int :: u.estado != BLOQUEADO ==> !IsLockedAt(r, now)
    ensures r == u.(intentosFallidos := 0, bloqueadoHasta := None)
  {
    u.(intentosFallidos := 0, bloqueadoHasta := None)
  }

  /** The audit row recordFailedLogin writes itself, with the account as actor. */
  function FailedLoginRow(userId: string, intentos: nat, now: int): (e: AuditoriaLog)
    ensures e.usuarioId == Some(userId) && e.accion == Auditoria.LOGIN_FALLIDO && !e.exitoso
  {
    AuditoriaLog(Some(userId), Auditoria.LOGIN_FALLIDO, None, None, Some("AUTENTICACION"),
      Some([("intentos", Entero(intentos)), ("bloqueado", Logico(intentos >= MAX_LOGIN_ATTEMPTS))]),
      None, None, false, now)
  }

  /**
   * isUserLocked: true for a missing or locked account; an account whose
   * temporary lock has expired is unlocked and its counter cleared.
   */
  method IsUserLocked(db: Db, userId: string, now: int) returns (locked: bool)
    requires db.Valid()
    modifies db`usuarios
    ensures db.Valid()
    ensures var i := IndexOfId(old(db.usuarios), userId);
      && (locked <==> i.None? || IsLockedAt(old(db.usuarios)[i.value], now))
      && db.usuarios == if i.None? then old(db.usuarios)
                        else old(db.usuarios)[i.value := LazyUnlock(old(db.usuarios)[i.value], now)]
  {
    var i := IndexOfId(db.usuarios, userId);
    if i.None? {
      return true;
    }
    var u := db.usuarios[i.value];
    if u.estado == BLOQUEADO {
      return true;
    }
    if u.bloqueadoHasta.Some? && u.bloqueadoHasta.value > now {
      return true;
    }
    if u.bloqueadoHasta.Some? && u.bloqueadoHasta.value <= now {
      UpdateKeepsUnique(db.usuarios, i.value, LazyUnlock(u, now));
      db.usuarios := db.usuarios[i.value := u.(bloqueadoHasta := None, intentosFallidos := 0)];
    }
    return false;
  }

  /**
   * recordFailedLogin: one more failure on the account, a lock once the limit is
   * reached, and an audit row; nothing at all for a missing account.
   */
  method RecordFailedLogin(db: Db, userId: string, now: int)
    requires db.Valid()
    modifies db`usuarios, db`logs
    ensures db.Valid()
    ensures match IndexOfId(old(db.usuarios), userId)
      case None => db.usuarios == old(db.usuarios) && db.logs == old(db.logs)
      case Some(i) =>
        var u' := AfterFailure(old(db.usuarios)[i], now);
        db.usuarios == old(db.usuarios)[i := u'] && db.logs == old(db.logs) + [FailedLoginRow(userId, u'.intentosFallidos, now)]
  {
    var i := IndexOfId(db.usuarios, userId);
    if i.None? {
      return;
    }
    var u := db.usuarios[i.value];
    var newAttempts := u.intentosFallidos + 1;
    var shouldLock := newAttempts >= MAX_LOGIN_ATTEMPTS;
    var u' := u.(intentosFallidos := newAttempts, bloqueadoHasta := if shouldLock then Some(now + LOCKOUT_MS) else None);
    UpdateKeepsUnique(db.usuarios, i.value, u');
    db.usuarios := db.usuarios[i.value := u'];
    db.logs := db.logs + [FailedLoginRow(userId, newAttempts, now)];
  }

  /**
   * resetFailedLogins: clears counter and lock. Prisma's update of a missing row
   * throws; `found` is false in that case and nothing changes.
   */
  method ResetFailedLogins(db: Db, userId: string) returns (found: bool)
    requires db.Valid()
    modifies db`usuarios
    ensures db.Valid()
    ensures found <==> HasId(old(db.usuarios), userId)
    ensures match IndexOfId(old(db.usuarios), userId)
      case None => db.usuarios == old(db.usuarios)
      case Some(i) => db.usuarios == old(db.usuarios)[i := AfterReset(old(db.usuarios)[i])]
  {
    var i := IndexOfId(db.usuarios, userId);
    if i.None? {
      return false;
    }
    UpdateKeepsUnique(db.usuarios, i.value, AfterReset(db.usuarios[i.value]));
    db.usuarios := db.usuarios[i.value := db.usuarios[i.value].(intentosFallidos := 0, bloqueadoHasta := None)];
    return true;
  }

  /** Below the limit a failure never locks; the failure that reaches it locks for 15 minutes. */
  lemma FailuresLockAtLimit(u: Usuario, now: int)
    ensures u.intentosFallidos + 1 < MAX_LOGIN_ATTEMPTS ==> !IsLockedAt(AfterFailure(u, now), now) || u.estado == BLOQUEADO
    ensures u.intentosFallidos + 1 >= MAX_LOGIN_ATTEMPTS ==>
      forall t :: now <= t < now + LOCKOUT_MS ==> IsLockedAt(AfterFailure(u, now), t)
  {
  }

  // ---------------------------------------------------------------------------
  // Codes
  // ---------------------------------------------------------------------------

  /** `Math.floor(100000 + random * 900000).toString()` for a draw `random` in [0, 1). */
  function GenerateOtp(random: real): (otp: string)
    requires 0.0 <= random < 1.0
    ensures |otp| == 6 && AllDigits(otp) && otp[0] != '0'
    ensures 100000 <= DecimalValue(otp) <= 999999
  {
    var n := (100000.0 + random * 900000.0).Floor;
    assert 100000 <= n < 1000000;
    assert Pow10(5) == 100000 && Pow10(6) == 1000000;
    DecimalLength(n, 6);
    DecimalLeadingDigit(n);
    DecimalRoundTrip(n);
    DecimalString(n)
  }

  /** The shape `DEN-<year>-<four digits>`. */
  ghost predicate IsCodigoAnonimo(c: string, year: nat) {
    var y := DecimalString(year);
    && |c| == 9 + |y|
    && c[..4] == "DEN-"
    && c[4..4 + |y|] == y
    && c[4 + |y|] == '-'
    && AllDigits(c[5 + |y|..])
  }

  /** The code built from the year and one draw `random` in [0, 1). */
  function CodigoFor(year: nat, random: real): (c: string)
    requires 0.0 <= random < 1.0
    ensures IsCodigoAnonimo(c, year)
  {
    var n := (random * 10000.0).Floor;
    assert 0 <= n < 10000;
    assert Pow10(4) == 10000;
    DecimalLengthAtMost(n, 4);
    var digits := PadStart(DecimalString(n), 4, '0');
    var y := DecimalString(year);
    var c := "DEN-" + y + "-" + digits;
    assert c[5 + |y|..] == digits;
    c
  }

  predicate CodigoTaken(denuncias: seq<Denuncia>, c: string) {
    exists i :: 0 <= i < |denuncias| && denuncias[i].codigoAnonimo == c
  }

  /** The first n draws all yield codes that are already on a case. */
  ghost predicate AllTaken(denuncias: seq<Denuncia>, year: nat, draws: seq<real>, n: nat)
    requires n <= |draws|
    requires forall i :: 0 <= i < |draws| ==> 0.0 <= draws[i] < 1.0
  {
    forall j :: 0 <= j < n ==> CodigoTaken(denuncias, CodigoFor(year, draws[j]))
  }

  /** A code found among the later draws, after a taken first draw, is the first free one of all the draws. */
  lemma FirstFreeStep(denuncias: seq<Denuncia>, year: nat, draws: seq<real>, r: Option<string>)
    requires forall i :: 0 <= i < |draws| ==> 0.0 <= draws[i] < 1.0
    requires draws != [] && CodigoTaken(denuncias, CodigoFor(year, draws[0]))
    requires r.Some? ==> exists k :: 0 <= k < |draws[1..]| && r.value == CodigoFor(year, draws[1..][k]) && AllTaken(denuncias, year, draws[1..], k)
    ensures r.Some? ==> exists i :: 0 <= i < |draws| && r.value == CodigoFor(year, draws[i]) && AllTaken(denuncias, year, draws, i)
  {
    if r.Some? {
      var k :| 0 <= k < |draws[1..]| && r.value == CodigoFor(year, draws[1..][k]) && AllTaken(denuncias, year, draws[1..], k);
      assert r.value == CodigoFor(year, draws[k + 1]);
      forall j | 0 <= j < k + 1
        ensures CodigoTaken(denuncias, CodigoFor(year, draws[j]))
      {
        if j > 0 {
          assert draws[j] == draws[1..][j - 1];
        }
      }
      assert AllTaken(denuncias, year, draws, k + 1);
    }
  }

  /**
   * generateCodigoAnonimo with the random draws it would consume given up front:
   * each draw yields a candidate, the first one not already on a case is returned,
   * and None stands for running out of draws (the source retries without bound).
   */
  function GenerateCodigoAnonimo(denuncias: seq<Denuncia>, year: nat, draws: seq<real>): (r: Option<string>)
    requires forall i :: 0 <= i < |draws| ==> 0.0 <= draws[i] < 1.0
    ensures r.Some? ==> IsCodigoAnonimo(r.value, year) && !CodigoTaken(denuncias, r.value)
    ensures r.Some? <==> exists i :: 0 <= i < |draws| && !CodigoTaken(denuncias, CodigoFor(year, draws[i]))
    ensures r.Some? ==> exists i :: 0 <= i < |draws| && r.value == CodigoFor(year, draws[i]) && AllTaken(denuncias, year, draws, i)
  {
    if draws == [] then None
    else
      var c := CodigoFor(year, draws[0]);
      if !CodigoTaken(denuncias, c) then Some(c)
      else
        var r := GenerateCodigoAnonimo(denuncias, year, draws[1..]);
        assert forall i :: 1 <= i < |draws| ==> draws[i] == draws[1..][i - 1];
        FirstFreeStep(denuncias, year, draws, r);
        r
  }

  // ---------------------------------------------------------------------------
  // Roles
  // ---------------------------------------------------------------------------

  function HasRole(userRole: Rol, allowed: seq<Rol>): (b: bool)
    ensures b <==> exists i :: 0 <= i < |allowed| && allowed[i] == userRole
  {
    userRole in allowed
  }

  function IsAdminOrSupervisor(userRole: Rol): (b: bool)
    ensures b <==> userRole != DENUNCIANTE
    ensures b <==> HasRole(userRole, [ADMIN, SUPERVISOR])
  {
    userRole == ADMIN || userRole == SUPERVISOR
  }
}
