# Voz Segura: a Dafny model of the server core

Voz Segura is a Next.js service for filing anonymous complaints (*denuncias*).
Complainants (`DENUNCIANTE`) file cases. Supervisors (`SUPERVISOR`) work the cases
assigned to them, and administrators (`ADMIN`) manage supervisors, assignment rules
and the audit trail. This project models the server side in Dafny:

- the authentication library: password policy, login lockout, one-time codes,
  anonymous case codes and role checks;
- the audit library: log rows, filtered log queries and automatic supervisor
  assignment;
- the field-encryption library and the one-off script that encrypts existing rows;
- the HTTP handlers for login, registration, password reset, the audit trail,
  users, supervisor rules, cases and the three chat endpoints.

The Prisma tables are sequences in one `class Db` (module `Schema`). A handler
that writes is a `method` with `modifies` on the tables it touches. It is proved
equal to a pure specification function of the tables before the request
(`LoginSpec`, `VerifySpec`, `PostSpec`, ...). The lemmas state what those
functions promise. The in-memory stores (the password-reset code map and the
development chat room) are classes whose fields the handlers reassign.

Foreign primitives are parameters:

- bcrypt's compare and hash;
- JWT signing and verification (RFC 7519);
- AES-256-GCM sealing and opening;
- the random draws behind codes and IVs;
- the clock;
- the ids the database assigns;
- Prisma's `contains` on strings;
- the environment variable `JWT_EXPIRES_IN` echoed by a successful login.

Timestamps are integers in milliseconds.

Modules: `Wrappers`, `Text`, `Sorting`, `Schema` and `Zod` are shared helpers.
They have no rows below, and neither do helper lemmas that only serve other
proofs (such as `ProjectMember`, `SameMembers`, `FilteredCounts`, `RankOf`,
`NothingNewerLeftOut` or `MatchesWindow`).
`Session` reads the `authorization` header. One module per source file follows:
`Auth`, `Auditoria`, `Encryption`, `EncryptExistingData`, `LoginRoute`,
`RegisterRoute`, `ResetPasswordRoute`, `AuditoriaRoute`, `UsuariosRoute`,
`ReglasRoute`, `DenunciasRoute`, `ChatDirectoRoute`, `ConversacionesRoute` and
`ChatRoute`.

## Model

| member | source | states |
|---|---|---|
| Auth.ValidatePasswordStrength | src/lib/auth.ts:195-223 | valid exactly when all five rules hold (length ≥ 8, upper, lower, digit, special from the listed class); otherwise the message is that of the first rule broken, in policy order |
| Auth.LazyUnlock | src/lib/auth.ts:104-122 | a locked account, or one without a lock date, is left alone; an expired lock is lifted and its failure counter cleared; no other column changes |
| Auth.IsUserLocked | src/lib/auth.ts:98-123 | reports locked for a missing account, a BLOQUEADO account or an unexpired lock; otherwise writes back the lazily unlocked account and nothing else |
| Auth.AfterFailure | src/lib/auth.ts:136-149 | the counter grows by one; a lock is set exactly when the counter reaches 5, and it lasts 15 minutes from now |
| Auth.FailedLoginRow | src/lib/auth.ts:152-163 | the failure's own audit row names the account and is marked unsuccessful LOGIN_FALLIDO |
| Auth.RecordFailedLogin | src/lib/auth.ts:130-164 | a missing account changes nothing; otherwise exactly that account becomes AfterFailure of it and one audit row is appended |
| Auth.AfterReset | src/lib/auth.ts:170-178 | counter 0 and no lock date, so an account that is not BLOQUEADO is unlocked at every time |
| Auth.ResetFailedLogins | src/lib/auth.ts:170-178 | succeeds exactly when the account exists, and then only that account is reset |
| Auth.FailuresLockAtLimit | src/lib/auth.ts:138-147 | failures below the limit never lock; the one that reaches it locks throughout the next 15 minutes |
| Auth.GenerateOtp | src/lib/auth.ts:260-262 | six decimal digits, no leading zero, value between 100000 and 999999 |
| Auth.CodigoFor | src/lib/auth.ts:235-240 | every candidate has the shape DEN-year-dddd |
| Auth.GenerateCodigoAnonimo | src/lib/auth.ts:234-253 | the result has the DEN-year-dddd shape and is on no existing case; it is the candidate of the first draw whose code is unused, every earlier draw yielding a code already on a case; it is found exactly when some draw yields an unused code |
| Auth.Test | src/lib/auth.ts:203-218 | a character-class regex test: true exactly when some character of the password is in the class |
| Auth.HasRole | src/lib/auth.ts:274-276 | true exactly when the role is in the allowed list |
| Auth.IsAdminOrSupervisor | src/lib/auth.ts:283-285 | true exactly for ADMIN and SUPERVISOR, i.e. for every role except DENUNCIANTE |
| Session.BearerToken | src/app/api/reglas-supervisor/route.ts:15-20 | a token exactly when the header is present and starts with "Bearer ", and then the header is "Bearer " followed by the token |
| Session.GetUserFromToken | src/app/api/reglas-supervisor/route.ts:14-22 | a caller exists only when the header starts with "Bearer " and the rest verifies, and then it is what verification returns |
| Session.StrippedToken | src/app/api/usuarios/route.ts:9-12 | no header means no token; a header "Bearer t" with t non-empty gives t; an empty remainder counts as no token |
| Session.StrippedCaller | src/app/api/chat/directo/route.ts:7-15 | no token, a token that fails to verify, or the verified payload, exactly as the stripped token and the verifier decide |
| Session.StrippedTokenTakesBareHeader | src/app/api/chat/directo/route.ts:7 | a header that never contains "Bearer " is used whole as the token |
| LoginRoute.ExpiresIn | src/app/api/auth/login/route.ts:160 | `JWT_EXPIRES_IN \|\| '7d'`: the setting when it is present and non-empty, "7d" otherwise |
| LoginRoute.LoginSpec | src/app/api/auth/login/route.ts:30-173 | the user table keeps its length and only the account with the given email can change; at most two audit rows are appended |
| LoginRoute.Login | src/app/api/auth/login/route.ts:30-173 | the handler's response and new tables are exactly LoginSpec of the tables before the request |
| LoginRoute.MalformedBodyRejectedFirst | src/app/api/auth/login/route.ts:34-45 | a body failing the schema gets 400 and changes nothing |
| LoginRoute.UnknownEmailLooksLikeWrongPassword | src/app/api/auth/login/route.ts:55-124 | an unknown email and a wrong password get the same 401 response |
| LoginRoute.LockedAccountUntouched | src/app/api/auth/login/route.ts:73-83 | a locked account gets 403 and neither table changes, whatever the password |
| LoginRoute.BlockedAccountNeverReachesInactiveBranch | src/app/api/auth/login/route.ts:73-101 | a BLOQUEADO account is answered by the lock check, never by the later inactive-account branch |
| LoginRoute.InactiveAccountRefused | src/app/api/auth/login/route.ts:86-101 | an INACTIVO account gets 403 after the lazy unlock, with one failed-login audit row and no new failure counted |
| LoginRoute.WrongPasswordCounted | src/app/api/auth/login/route.ts:104-124 | a wrong password counts one failure on the account (possibly locking it) and appends two LOGIN_FALLIDO rows, the account's own and an anonymous one |
| LoginRoute.CorrectPasswordLogsIn | src/app/api/auth/login/route.ts:127-162 | the right password answers 200 with the account summary, a token signed over id, email and role, and the expiry the JWT_EXPIRES_IN setting gives ("7d" by default), clears the counter and lock, and appends one successful LOGIN row |
| LoginRoute.WrongPasswordStep | src/app/api/auth/login/route.ts:104-124 | on an active account the k-th consecutive wrong password leaves exactly k+1 failures and locks at 5 |
| LoginRoute.LockedUntilExpiry | src/app/api/auth/login/route.ts:73-83 | after the fifth failure even the right password is refused until the 15 minutes end, and is accepted afterwards with the counter cleared |
| LoginRoute.LockoutScenario | src/lib/auth.ts:130-164 | five wrong passwords in a row lock the account; the right password is refused during the lock and logs in after it |
| ResetPasswordRoute.OtpStore.constructor | src/app/api/auth/reset-password/route.ts:34-40 | the code store starts empty |
| ResetPasswordRoute.Decide | src/app/api/auth/reset-password/route.ts:149-194 | exactly one of: no code stored, expired (now past the expiry), wrong code, weak new password (with the policy's message), accept |
| ResetPasswordRoute.RequestSpec | src/app/api/auth/reset-password/route.ts:52-114 | the user table is untouched, at most one audit row is appended, and codes stored for other emails are kept |
| ResetPasswordRoute.VerifySpec | src/app/api/auth/reset-password/route.ts:117-228 | the user table keeps its length, at most one audit row is appended, and the code store only loses entries |
| ResetPasswordRoute.ResetSpec | src/app/api/auth/reset-password/route.ts:231-237 | an action other than request or verify gets 400 and changes nothing |
| ResetPasswordRoute.RequestOtp | src/app/api/auth/reset-password/route.ts:52-114 | the handler's response, tables and code store are exactly RequestSpec of the state before |
| ResetPasswordRoute.VerifyOtp | src/app/api/auth/reset-password/route.ts:117-228 | the handler's response, tables and code store are exactly VerifySpec of the state before |
| ResetPasswordRoute.Post | src/app/api/auth/reset-password/route.ts:46-237 | the handler's response, tables and code store are exactly ResetSpec of the state before |
| ResetPasswordRoute.RequestUnknownEmailRevealsNothing | src/app/api/auth/reset-password/route.ts:72-78 | an unknown email gets the same 200 "if the email exists" answer and nothing changes |
| ResetPasswordRoute.RequestKnownEmailStoresCode | src/app/api/auth/reset-password/route.ts:81-102 | a known email stores a fresh six-digit code for it, expiring in five minutes, and appends one RESET_PASSWORD row |
| ResetPasswordRoute.VerifyUnknownEmail | src/app/api/auth/reset-password/route.ts:134-146 | verifying for an unknown email gets 404 and changes nothing |
| ResetPasswordRoute.VerifyMalformed | src/app/api/auth/reset-password/route.ts:118-129 | a code that is not six characters long gets 400 and changes nothing |
| ResetPasswordRoute.VerifyExpiry | src/app/api/auth/reset-password/route.ts:162-171 | past the expiry the code is deleted and refused; at the exact expiry instant it is still accepted |
| ResetPasswordRoute.WrongGuessesUnlimited | src/app/api/auth/reset-password/route.ts:174-182 | a wrong guess changes nothing, so any number of guesses leaves the next attempt's outcome unchanged |
| ResetPasswordRoute.WeakNewPasswordKeepsCode | src/app/api/auth/reset-password/route.ts:185-194 | a weak new password is refused with the policy's message and the code stays usable |
| ResetPasswordRoute.SuccessConsumesCode | src/app/api/auth/reset-password/route.ts:197-227 | success stores the new hash, clears counter and lock, deletes the code, so a replay finds no code |
| Auditoria.OrNull | src/lib/auditoria.ts:75-87 | an absent or empty value is stored as null, any other value as given |
| Auditoria.ToRow | src/lib/auditoria.ts:73-87 | the row carries the action, time and details given, every optional text null-normalised, and is successful unless exitoso is explicitly false |
| Auditoria.RegistrarLog | src/lib/auditoria.ts:73-93 | a successful insert appends exactly that row and returns it; a failed insert appends nothing and returns null |
| Auditoria.LoginExitosoData | src/lib/auditoria.ts:98-115 | a successful LOGIN row attributed to the user, resource AUTENTICACION |
| Auditoria.LoginFallidoData | src/lib/auditoria.ts:120-139 | an unsuccessful LOGIN_FALLIDO row with no user, resource AUTENTICACION |
| Auditoria.CreacionDenunciaData | src/lib/auditoria.ts:144-159 | a successful CREAR_DENUNCIA row on resource DENUNCIA:id, attributed to the complainant or to nobody |
| Auditoria.CambioEstadoData | src/lib/auditoria.ts:183-194 | a successful CAMBIO_ESTADO_DENUNCIA row by the user on resource DENUNCIA:id |
| Auditoria.AsignacionDenunciaData | src/lib/auditoria.ts:200-215 | a successful ASIGNAR_DENUNCIA row by the administrator on resource DENUNCIA:id |
| Auditoria.DerivacionDenunciaData | src/lib/auditoria.ts:220-235 | a successful DERIVAR_DENUNCIA row by the supervisor on resource DENUNCIA:id |
| Auditoria.SubidaEvidenciaData | src/lib/auditoria.ts:240-257 | a successful SUBIR_EVIDENCIA row on resource EVIDENCIA:id |
| Auditoria.AccesoEvidenciaData | src/lib/auditoria.ts:262-277 | a successful VER_EVIDENCIA row by the user on resource EVIDENCIA:id |
| Auditoria.RegistrarCambioEstado | src/lib/auditoria.ts:164-195 | appends one history entry (old state, new state, null-normalised comment, author) and one audit row |
| Auditoria.FilterLogs | src/lib/auditoria.ts:295-317 | keeps exactly the rows satisfying the where clause, each no more often than in the table |
| Auditoria.FilterLogsCount | src/lib/auditoria.ts:295-317 | the filtered rows number exactly the rows matching the filters |
| Auditoria.BuildWhere | src/lib/auditoria.ts:295-317 | the where clause built from the filters holds for a row (as `Holds` reads Prisma's where object) exactly when the row matches every given filter: empty strings ignored, dates as inclusive bounds |
| Auditoria.TakeOf | src/lib/auditoria.ts:335 | the page size is at least 1: a positive limit is used as given, and an absent or zero limit means 100 |
| Auditoria.Page | src/lib/auditoria.ts:334-336 | skip then take: the length is the rows left after skipping, capped at take, and the i-th entry is the (skip+i)-th row; no row is taken more often than it occurs |
| Auditoria.PageWindow | src/lib/auditoria.ts:333-336 | a skip-then-take page of a newest-first sequence is the window after the skipped rows: for its i-th row, at most skip+i rows of the sequence are strictly newer and more than skip+i are no older; without a skip nothing newer than a row of the page is outside it |
| Auditoria.ConsultarLogs | src/lib/auditoria.ts:286-338 | every returned row matches the filters, rows are newest first, and the count is the matching count after skip, capped at take; no table row is returned more often than it occurs; the page is the window after the skip: for the i-th returned row, at most offset+i matching rows are strictly newer and more than offset+i are no older, so each returned row has the creation time of the (offset+i)-th match newest first; without an offset no matching row newer than a returned one is left out. Only the order among rows with equal creation times is left open |
| Auditoria.ConsultarLogsComplete | src/lib/auditoria.ts:286-338 | with no skip and a large enough page every matching row is returned |
| Auditoria.SupervisoresActivos | src/lib/auditoria.ts:354-366 | exactly the users who are ACTIVO supervisors |
| Auditoria.MenosCarga | src/lib/auditoria.ts:371-375 | the chosen candidate has the least number of open cases, and every candidate before it has strictly more |
| Auditoria.AsignarSupervisorAutomatico | src/lib/auditoria.ts:343-376 | null exactly when there is no active supervisor; otherwise an active supervisor with the fewest open (PENDIENTE or EN_REVISION) cases |
| Auditoria.AsignacionPrefersEarliest | src/lib/auditoria.ts:368-375 | among supervisors tied on load the earliest in query order is chosen |
| Auditoria.AsignacionIgnoresReglas | src/lib/auditoria.ts:345-351 | the assignment is the same whatever the rules and the category: the fetched rules are never used |
| AuditoriaRoute.AuditoriaSpec | src/app/api/auditoria/route.ts:36-122 | 401 exactly without a verified caller, 403 exactly for a caller who is not ADMIN; otherwise the rows are ConsultarLogs of the page filters, meta echoes limit and offset, count is the page length and total the matching count capped at 999999 |
| AuditoriaRoute.SameFiltersSameCount | src/app/api/auditoria/route.ts:71-90 | the page query and the total query count the same rows: limit and offset do not affect matching |
| AuditoriaRoute.GetAuditoria | src/app/api/auditoria/route.ts:36-122 | answers as AuditoriaSpec on the log table before the request; a served read appends one CONSULTA_AUDITORIA row with the number returned; a refused one appends nothing |
| AuditoriaRoute.Defaults | src/app/api/auditoria/route.ts:67-68 | without limit and offset the page is at most 100 rows from offset 0 |
| AuditoriaRoute.ZeroLimitQuirk | src/app/api/auditoria/route.ts:67 | limit=0 is echoed as 0 in meta but the query returns 100 rows when there are that many |
| AuditoriaRoute.AnswerPrecedesSelfLog | src/app/api/auditoria/route.ts:93-103 | the rows returned are all rows that existed before the request: the read's own audit row is not among them |
| Encryption.B64HasNoColon | src/lib/encryption.ts:41 | base64 text contains no ':' so the envelope's separators are unambiguous |
| Encryption.Encrypt | src/lib/encryption.ts:27-46 | null for a falsy input or a cipher failure; otherwise the text splits at ':' into exactly the IV, the tag and the ciphertext |
| Encryption.EnvelopeParts | src/lib/encryption.ts:41 | joining three base64 parts with ':' and splitting again gives back the parts |
| Encryption.Decrypt | src/lib/encryption.ts:53-79 | null for a falsy input or one without exactly three ':'-separated parts; otherwise exactly the cipher's opening of the three text parts (its base64 decoding included), null when that fails |
| Encryption.DecryptEncrypt | src/lib/encryption.ts:27-79 | for a cipher whose open inverts its seal, decrypting an encryption gives back the text |
| Encryption.EncryptedHasColon | src/lib/encryption.ts:41 | every encrypted value contains ':', which is what the migration script tests |
| Encryption.MaskWord | src/lib/encryption.ts:130-135 | a word keeps its length and its first character; the rest becomes '*' |
| Encryption.MaskText | src/lib/encryption.ts:127-137 | a falsy text becomes "***"; any other keeps its length, and each character is kept when it is a space or starts a word, and is '*' otherwise |
| Encryption.MaskSplitJoin | src/lib/encryption.ts:130-136 | split at spaces, mask each word and join with spaces gives that character-by-character result |
| Encryption.Transformed | src/lib/encryption.ts:87-121 | visiting the listed fields keeps the record's set of keys |
| Encryption.TransformedKeepsOthers | src/lib/encryption.ts:91-97 | an unlisted field, or one without a string value, is copied unchanged |
| Encryption.TransformedListedOnce | src/lib/encryption.ts:91-97 | a string field listed once ends as the transform of its original value, or null when the transform fails |
| Encryption.TransformFields | src/lib/encryption.ts:91-97 | the copy-and-overwrite loop computes Transformed over all listed fields |
| Encryption.EncryptFields | src/lib/encryption.ts:87-100 | the record with each listed string field encrypted (null on failure) and every other field kept |
| Encryption.DecryptFields | src/lib/encryption.ts:108-121 | the record with each listed string field decrypted (null on failure) and every other field kept |
| Encryption.DecryptFieldsEncryptFields | src/lib/encryption.ts:87-121 | decrypting the fields of an encrypted record gives back each non-empty listed field |
| EncryptExistingData.EncryptIfNeeded | scripts/encrypt-existing-data.ts:40-50 | a value is encrypted only when it is non-empty and has no ':'; any other is kept |
| EncryptExistingData.EncryptIfNeededSettles | scripts/encrypt-existing-data.ts:40-50 | after one pass a value never needs encrypting again |
| EncryptExistingData.Migrated | scripts/encrypt-existing-data.ts:40-62 | only nombre, apellido and telefono change, and afterwards none of them needs encrypting |
| EncryptExistingData.MigratedTable | scripts/encrypt-existing-data.ts:31-67 | the table keeps its length, and each user is migrated unless its update fails, in which case it is kept |
| EncryptExistingData.EncryptExisting | scripts/encrypt-existing-data.ts:28-67 | the loop leaves the table as MigratedTable and returns the processed and error counts |
| EncryptExistingData.CountsPartitionWork | scripts/encrypt-existing-data.ts:52-66 | processed plus errors equals the number of users that had something to encrypt, never more than the users seen |
| EncryptExistingData.NoWorkCountsZero | scripts/encrypt-existing-data.ts:40-50 | a table with nothing to encrypt reports zero processed and zero errors |
| EncryptExistingData.RerunIsNoop | scripts/encrypt-existing-data.ts:31-67 | running the script again after a clean run changes nothing and reports zero processed and zero errors |
| RegisterRoute.RolOf | src/app/api/auth/register/route.ts:103 | an absent role means DENUNCIANTE; a given role is used as given |
| RegisterRoute.NewAccount | src/app/api/auth/register/route.ts:96-116 | the new account is ACTIVO with no failures and no lock, stores the hash, and null-normalises the optional names and phone |
| RegisterRoute.CrearUsuarioData | src/app/api/auth/register/route.ts:119-131 | a successful CREAR_USUARIO row by the new user on resource USUARIO:id |
| RegisterRoute.RegisterSpec | src/app/api/auth/register/route.ts:33-150 | at most one account is appended, the audit table grows by exactly as many rows, and success means an account was added |
| RegisterRoute.Register | src/app/api/auth/register/route.ts:33-150 | the handler's response and new tables are exactly RegisterSpec of the tables before |
| RegisterRoute.ChecksInOrder | src/app/api/auth/register/route.ts:39-89 | the checks run in order (schema, password confirmation, strength, duplicate email) and each refusal changes nothing |
| RegisterRoute.SuccessCreatesAccount | src/app/api/auth/register/route.ts:96-139 | success appends the new account with the requested role and a CREAR_USUARIO row, keeps emails and ids unique, and returns the account without its hash |
| RegisterRoute.SelfRegistrationAsAdmin | src/app/api/auth/register/route.ts:96-106 | a body asking for rol ADMIN creates an ADMIN account |
| RegisterRoute.DuplicateEmailCreatesNothing | src/app/api/auth/register/route.ts:77-89 | an email already registered never creates an account or a log row |
| UsuariosRoute.Gate | src/app/api/usuarios/route.ts:9-17 | 401 exactly without a token, 403 exactly when it fails to verify or the caller is not ADMIN, passes otherwise |
| UsuariosRoute.FilterRol | src/app/api/usuarios/route.ts:19-24 | exactly the users of the requested role, or all users without one |
| UsuariosRoute.ByNewest | src/app/api/usuarios/route.ts:34 | a permutation ordered by creation time, newest first |
| UsuariosRoute.ListUsers | src/app/api/usuarios/route.ts:19-37 | newest first, and a listing appears exactly when it is that of a selected user; one listing per selected user (as many as FilterRol selects); without a role filter every user is listed |
| UsuariosRoute.GetSpec | src/app/api/usuarios/route.ts:7-47 | the gate's answer when it refuses; a listing exactly when the gate passes and the role is absent, empty or valid; that listing is ListUsers |
| UsuariosRoute.NewSupervisor | src/app/api/usuarios/route.ts:88-106 | the new account is an ACTIVO SUPERVISOR with no failures, no lock and no phone, storing the hash |
| UsuariosRoute.CrearSupervisorData | src/app/api/usuarios/route.ts:108-116 | a CREAR_SUPERVISOR row on table Usuario, with no acting user and no user agent |
| UsuariosRoute.PostSpec | src/app/api/usuarios/route.ts:49-126 | the gate's refusals are answered first; at most one account is appended, with one log row, and 201 means it was |
| UsuariosRoute.Post | src/app/api/usuarios/route.ts:49-126 | the handler's response and new tables are exactly PostSpec of the tables before |
| UsuariosRoute.PostDecision | src/app/api/usuarios/route.ts:61-118 | past the gate: 400 exactly for a missing field, a role other than SUPERVISOR or a taken email, with nothing changed; otherwise 201 and the new supervisor appended with an anonymous log row |
| UsuariosRoute.WeakPasswordAccepted | src/app/api/usuarios/route.ts:61-106 | a one-character password is accepted for a new supervisor: this route does not apply the password policy |
| ReglasRoute.Gate | src/app/api/reglas-supervisor/route.ts:50-64 | 401 exactly without a verified bearer caller, 403 exactly for a non-ADMIN caller, passes for ADMIN |
| ReglasRoute.ListRules | src/app/api/reglas-supervisor/route.ts:67-72 | a permutation of the rules ordered by priority descending, then newest first |
| ReglasRoute.GetSpec | src/app/api/reglas-supervisor/route.ts:47-85 | the list exactly when the gate passes, and it is ListRules; otherwise the gate's answer |
| ReglasRoute.ParseCategorias | src/app/api/reglas-supervisor/route.ts:27-40 | succeeds exactly when every entry names a category, and then names them in order |
| ReglasRoute.NewRule | src/app/api/reglas-supervisor/route.ts:126-137 | the inserted rule has the given name, description and categories, priority 0 and activa true by default, and no supervisor |
| ReglasRoute.CrearReglaData | src/app/api/reglas-supervisor/route.ts:140-148 | a successful CREAR_REGLA_SUPERVISOR row by the administrator on table ReglaSupervisor and the new rule |
| ReglasRoute.PostSpec | src/app/api/reglas-supervisor/route.ts:92-162 | a rule is created exactly when the gate passes and the body is valid; the stored and returned rule is then NewRule of the body (no supervisor, prioridad 0 and activa true by default) and the one appended log row is the CREAR_REGLA_SUPERVISOR row of the caller; otherwise the answer is the gate's refusal or the invalid-data error and nothing changes |
| ReglasRoute.Post | src/app/api/reglas-supervisor/route.ts:92-162 | the handler's response and new tables are exactly PostSpec of the tables before |
| ReglasRoute.DuplicateRulesAccepted | src/app/api/reglas-supervisor/route.ts:126-137 | posting the same rule twice creates two active rules with the same categories and priority |
| DenunciasRoute.ParseEstado | src/app/api/denuncias/route.ts:97-110 | recognises exactly the six state names |
| DenunciasRoute.BuildWhere | src/app/api/denuncias/route.ts:85-110 | fails exactly on an unknown state or category; otherwise restricts a SUPERVISOR to their assigned cases and a DENUNCIANTE to their own, and filters by every truthy query field |
| DenunciasRoute.FilterCases | src/app/api/denuncias/route.ts:155-161 | exactly the cases the where clause admits |
| DenunciasRoute.ByNewest | src/app/api/denuncias/route.ts:155-161 | a permutation ordered by creation time, newest first |
| DenunciasRoute.View | src/app/api/denuncias/route.ts:113-152 | the complainant's identity is included exactly for a DENUNCIANTE caller; id, code, state, category and date are the case's |
| DenunciasRoute.ListCases | src/app/api/denuncias/route.ts:113-161 | newest first; every view is that of an admitted case, every admitted case is shown, and there is one view per admitted case (as many as FilterCases admits) |
| DenunciasRoute.ListarData | src/app/api/denuncias/route.ts:164-174 | a successful LISTAR_DENUNCIAS row by the caller on table Denuncia |
| DenunciasRoute.GetSpec | src/app/api/denuncias/route.ts:64-187 | 401 exactly without a verified caller; a listing exactly when the where clause can be built, together with one audit row; otherwise no row |
| DenunciasRoute.Get | src/app/api/denuncias/route.ts:64-187 | the handler's response and log table are exactly GetSpec of the tables before |
| DenunciasRoute.RoleScopedVisibility | src/app/api/denuncias/route.ts:85-110 | every listed case is one the caller may see (a supervisor's assigned case, a complainant's own) and matches the state and category filters |
| DenunciasRoute.PostSpec | src/app/api/denuncias/route.ts:195-273 | filing appends exactly one case and one audit row; any refusal changes nothing |
| DenunciasRoute.FileCase | src/app/api/denuncias/route.ts:226-259 | the new case is PENDIENTE with the given code and category, owned by the caller (or nobody), assigned by AsignarSupervisorAutomatico, and logged as CREAR_DENUNCIA |
| DenunciasRoute.Post | src/app/api/denuncias/route.ts:195-273 | the handler's response and new tables are exactly PostSpec of the tables before |
| DenunciasRoute.InsertCase | src/app/api/denuncias/route.ts:232-259 | the insertion step's response and new tables are exactly FileCase |
| DenunciasRoute.FilingGate | src/app/api/denuncias/route.ts:198-221 | a signed-in caller who is not a DENUNCIANTE gets 403 and nothing changes; a filed case has a valid body and belongs to the caller, or to nobody for an anonymous filing |
| DenunciasRoute.FiledCaseInitialState | src/app/api/denuncias/route.ts:226-259 | a filed case starts PENDIENTE, carries a fresh DEN-year-dddd code and the least-loaded active supervisor, and is logged |
| ChatDirectoRoute.SharedCase | src/app/api/chat/directo/route.ts:26-40 | none exactly when no case links the two users as complainant and supervisor, in either role; otherwise a linking case |
| ChatDirectoRoute.SharedCaseSymmetric | src/app/api/chat/directo/route.ts:107-121 | the shared case does not depend on which of the two asks |
| ChatDirectoRoute.FilterBetween | src/app/api/chat/directo/route.ts:43-64 | exactly the messages sent between the two users, in either direction |
| ChatDirectoRoute.Format | src/app/api/chat/directo/route.ts:66-72 | esPropio exactly for the caller's own messages; id, text and time are the message's |
| ChatDirectoRoute.ByOldest | src/app/api/chat/directo/route.ts:43-64 | a permutation ordered by creation time, oldest first |
| ChatDirectoRoute.Conversation | src/app/api/chat/directo/route.ts:43-72 | oldest first, and it shows exactly the messages between the two users, each formatted for the caller, one entry per message (as many as FilterBetween selects) |
| ChatDirectoRoute.GetSpec | src/app/api/chat/directo/route.ts:5-82 | 401 without a verified caller, 400 without the other user; the conversation exactly when the two share a case |
| ChatDirectoRoute.PostSpec | src/app/api/chat/directo/route.ts:84-146 | 401 without a verified caller, 400 without text or recipient; a message is sent exactly when the two share a case, and it is appended linked to that case; otherwise nothing changes |
| ChatDirectoRoute.Post | src/app/api/chat/directo/route.ts:84-146 | the handler's response and message table are exactly PostSpec of the table before |
| ChatDirectoRoute.SentMessageVisibleToRecipient | src/app/api/chat/directo/route.ts:43-136 | a message sent is in the recipient's next read of the conversation with the sender, marked as not their own |
| ConversacionesRoute.Distinct | src/app/api/chat/conversaciones/route.ts:45 | Prisma's `distinct`: the same values, each once |
| ConversacionesRoute.Present | src/app/api/chat/conversaciones/route.ts:49 | the `filter` on a truthy id: exactly the present non-empty ids, still without repeats |
| ConversacionesRoute.Pseudonym | src/app/api/chat/conversaciones/route.ts:52 | '#' followed by at least three decimal digits |
| ConversacionesRoute.PseudonymValue | src/app/api/chat/conversaciones/route.ts:52 | the digits of a pseudonym spell its number, zero padding included |
| ConversacionesRoute.PseudonymsDistinct | src/app/api/chat/conversaciones/route.ts:52 | different numbers give different pseudonyms |
| ConversacionesRoute.SupervisorPartners | src/app/api/chat/conversaciones/route.ts:32-49 | without repeats, exactly the non-empty complainants of cases assigned to the supervisor |
| ConversacionesRoute.DenunciantePartners | src/app/api/chat/conversaciones/route.ts:61-80 | without repeats, exactly the supervisors of the complainant's own cases |
| ConversacionesRoute.SupervisorConversations | src/app/api/chat/conversaciones/route.ts:48-57 | one DENUNCIANTE entry per partner, the k-th named #00k |
| ConversacionesRoute.DenuncianteConversations | src/app/api/chat/conversaciones/route.ts:79-88 | one SUPERVISOR entry per partner, each named "Supervisor Asignado" |
| ConversacionesRoute.ConversationsOf | src/app/api/chat/conversaciones/route.ts:28-89 | by role: supervisor and complainant lists as above, nothing for ADMIN; no entry has a last message, activity or unread count |
| ConversacionesRoute.GetSpec | src/app/api/chat/conversaciones/route.ts:5-91 | 401 exactly without a verified caller; otherwise the caller's conversation list |
| ConversacionesRoute.SupervisorPseudonymsDistinct | src/app/api/chat/conversaciones/route.ts:48-57 | no two complainants in a supervisor's list share a pseudonym |
| ConversacionesRoute.SupervisorSeesOnlyAssigned | src/app/api/chat/conversaciones/route.ts:30-57 | each complainant offered to a supervisor has a case assigned to that supervisor, and appears once |
| ChatRoute.SenderOf | src/app/api/chat/route.ts:29-34 | missing or empty sender fields fall back to anon, Anonimo, empty surname and DENUNCIANTE; given ones are kept |
| ChatRoute.NewMessage | src/app/api/chat/route.ts:36-41 | the id is the decimal clock reading, the text is the body's or empty, the sender is SenderOf the body |
| ChatRoute.Recent | src/app/api/chat/route.ts:18 | a suffix of the messages: the newest `limit` for a positive limit, all for 0, all but the oldest -limit for a negative one |
| ChatRoute.LimitOf | src/app/api/chat/route.ts:15 | an absent limit means 50 |
| ChatRoute.ChatRoom.constructor | src/app/api/chat/route.ts:11 | the room starts empty |
| ChatRoute.ChatRoom.Post | src/app/api/chat/route.ts:23-50 | appends exactly the new message and returns it |
| ChatRoute.ChatRoom.Get | src/app/api/chat/route.ts:13-21 | the Recent suffix for the requested limit, at most the 50 newest by default; the room is unchanged |
| ChatRoute.PostedIsNewest | src/app/api/chat/route.ts:18-43 | a message just posted ends every read with a positive limit, and is all a read with limit 1 returns |

## Left out

- bcrypt (`hashPassword`, `verifyPassword`) and JWT (`generateToken`, `verifyToken`) in src/lib/auth.ts are parameters. Nothing is proved about hashing or signing beyond what the handlers do with the results.
- AES-256-GCM, the PBKDF2 key derivation and base64 encoding in src/lib/encryption.ts are the `Cipher` parameter. Its `open` takes the three text parts as they are and does the base64 decoding, lenient as `Buffer.from` is. `DecryptEncrypt` assumes its open inverts its seal.
- `Math.random` and `crypto.randomBytes` are parameters: real draws in [0, 1) and an IV per field.
- The clock, `Date.now()` ids and ISO timestamps are parameters. Times are integer milliseconds.
- The `setTimeout` eviction of reset codes (src/app/api/auth/reset-password/route.ts:88-90) is not modelled: expiry is the check at lines 162-171.
- Concurrency between requests is not modelled: each handler runs alone on the tables.
- Zod's email check is the approximation `Zod.IsEmail`. Zod's lengths count UTF-16 code units; the model counts characters.
- Only string and absent body fields are modelled. Bodies with values of other JSON types, and JSON parse errors, are left out.
- JSON serialisation of the audit details is left out: `detalles` is a structured value.
- The 500 answers from caught exceptions are left out, except those the model derives: an unknown estado or categoria in the case listing, and running out of code draws.
- The route handlers always pass a successful insert to `Auditoria.RegistrarLog`. Its failure path is modelled only in that method.
- Prisma's order among rows with equal sort keys is unspecified. The model uses a stable sort.
- Queries without `orderBy` return rows in an order Prisma does not specify; the model reads them in table order. This concerns ChatDirectoRoute.SharedCase (`findFirst`, src/app/api/chat/directo/route.ts:26-33 and 107-114), Auditoria.SupervisoresActivos (src/lib/auditoria.ts:354-366), and ConversacionesRoute.Complainants and ConversacionesRoute.Supervisors (`distinct`, src/app/api/chat/conversaciones/route.ts:32-46 and 61-76). Which linking case a direct message records as `denunciaId`, which supervisor wins a tie in the automatic assignment, and which complainant gets which #00k name all follow from that choice.
- ChatDirectoRoute.SharedCaseSymmetric: holds under the table-order reading above. The source promises only that a linking case is found from either side exactly when one exists, which `SharedCase`'s own contract states.
- Auth.FailuresLockAtLimit, LoginRoute.WrongPasswordStep, LoginRoute.LockedUntilExpiry and LoginRoute.LockoutScenario: `MAX_LOGIN_ATTEMPTS` and `LOCKOUT_DURATION_MINUTES` (src/lib/auth.ts:26-27) are read from the environment; the model fixes them at their defaults 5 and 15. A non-numeric setting makes `parseInt` give NaN, under which the account never locks; that is not modelled.
- Auth.ValidatePasswordStrength: the 8-character minimum counts Unicode characters. JavaScript's `length` counts UTF-16 code units, so a password with characters outside the Basic Multilingual Plane can pass in the source and fail here.
- Encryption.MaskWord: `word.length` and `word[0]` are read per Unicode character. JavaScript reads UTF-16 code units, so a word starting with a character outside the Basic Multilingual Plane is masked differently.
- Encryption.MaskText: the same UTF-16 difference as Encryption.MaskWord, word by word.
- Relation loading (`include`, nested `select`) is reduced to the columns the responses use. Prisma's `contains` is a parameter.
- The `devOTP` field returned outside production, and all console logging, are left out.
- Evidence, referral fields (`derivadaA`, `fechaDerivacion`) and `updatedAt` are not columns of the model.
- The `user.userId || user.id` fallback in the chat routes is left out: the caller is `userId`.
- Auth.GenerateCodigoAnonimo: consumes a finite list of draws and returns None when they run out. The source retries without bound.
- ChatRoute.LimitOf: the limit is an integer or absent. `Number()` giving NaN or a fraction is not modelled.
- AuditoriaRoute.LimitOf: limit and offset are natural numbers or absent. `parseInt` giving NaN or a negative number is not modelled.
- EncryptExistingData.EncryptExisting: a failing update is modelled by the set `fails` of user ids whose update throws. Why an update fails is not modelled.
- UsuariosRoute.NewSupervisor: the columns the handler leaves out take the table defaults (ACTIVO, no failures, no lock); the schema file is not part of this model.
- Auditoria.ReglasActivas: the rules query is modelled without its priority ordering, since its result is never used.
