/**
 * The audit trail (registrarLog and its wrappers, consultarLogs) and the
 * automatic supervisor assignment that lives in the same library file.
 */
module Auditoria {
  import opened Wrappers
  import opened Schema
  import opened Sorting

  // The action tags of AccionAuditoria used by the modelled code.
  const LOGIN := "LOGIN"
  const LOGIN_FALLIDO := "LOGIN_FALLIDO"
  const RESET_PASSWORD := "RESET_PASSWORD"
  const CREAR_DENUNCIA := "CREAR_DENUNCIA"
  const LISTAR_DENUNCIAS := "LISTAR_DENUNCIAS"
  const CAMBIO_ESTADO_DENUNCIA := "CAMBIO_ESTADO_DENUNCIA"
  const ASIGNAR_DENUNCIA := "ASIGNAR_DENUNCIA"
  const DERIVAR_DENUNCIA := "DERIVAR_DENUNCIA"
  const SUBIR_EVIDENCIA := "SUBIR_EVIDENCIA"
  const VER_EVIDENCIA := "VER_EVIDENCIA"
  const CREAR_USUARIO := "CREAR_USUARIO"
  const CONSULTA_AUDITORIA := "CONSULTA_AUDITORIA"
  const CREAR_REGLA_SUPERVISOR := "CREAR_REGLA_SUPERVISOR"

  /** What a caller hands to registrarLog; every field but the action may be left out. */
  datatype LogData = LogData(
    usuarioId: Option<string>,
    accion: string,
    tabla: Option<string>,
    registroId: Option<string>,
    recurso: Option<string>,
    detalles: Option<Detalles>,
    ipAddress: Option<string>,
    userAgent: Option<string>,
    exitoso: Option<bool>)

  /** `x || null`: an absent or empty string is stored as null. */
  function OrNull(s: Option<string>): (r: Option<string>)
    ensures r.None? <==> s.None? || s.value == ""
    ensures r.Some? ==> r == s
  {
    if s.Some? && s.value != "" then s else None
  }

  /** The stored value of an optional text column, given what the caller passed. */
  ghost predicate NullNormalised(stored: Option<string>, given: Option<string>) {
    && (stored.None? <==> given.None? || given == Some(""))
    && (stored.Some? ==> stored == given)
  }

  /** The request headers route handlers copy into audit rows (x-forwarded-for, user-agent). */
  datatype Client = Client(ip: Option<string>, ua: Option<string>)

  /** The row registrarLog inserts for `d` at time `now`. */
  function ToRow(d: LogData, now: int): (e: AuditoriaLog)
    ensures e.accion == d.accion && e.createdAt == now && e.detalles == d.detalles
    ensures NullNormalised(e.usuarioId, d.usuarioId) && NullNormalised(e.tabla, d.tabla)
    ensures NullNormalised(e.registroId, d.registroId) && NullNormalised(e.recurso, d.recurso)
    ensures NullNormalised(e.ipAddress, d.ipAddress) && NullNormalised(e.userAgent, d.userAgent)
    ensures e.exitoso <==> d.exitoso != Some(false)
  {
    AuditoriaLog(
      OrNull(d.usuarioId), d.accion, OrNull(d.tabla), OrNull(d.registroId), OrNull(d.recurso),
      d.detalles, OrNull(d.ipAddress), OrNull(d.userAgent),
      if d.exitoso.Some? then d.exitoso.value else true,
      now)
  }

  /**
   * registrarLog: append one row; `insertOk` is whether the database accepts the
   * insert. A failed insert is swallowed: nothing is appended and null is returned.
   */
  method RegistrarLog(db: Db, data: LogData, now: int, insertOk: bool) returns (r: Option<AuditoriaLog>)
    modifies db`logs
    ensures r == if insertOk then Some(ToRow(data, now)) else None
    ensures db.logs == old(db.logs) + (if insertOk then [ToRow(data, now)] else [])
  {
    if insertOk {
      var row := ToRow(data, now);
      db.logs := db.logs + [row];
      r := Some(row);
    } else {
      r := None;
    }
  }

  // The wrappers: each fixes the actor, the action and the outcome flag.

  function LoginExitosoData(usuarioId: string, ip: Option<string>, ua: Option<string>, now: int): (d: LogData)
    ensures var e := ToRow(d, now);
      NullNormalised(e.usuarioId, Some(usuarioId)) && e.accion == LOGIN && e.exitoso
      && e.recurso == Some("AUTENTICACION")
  {
    LogData(Some(usuarioId), LOGIN, None, None, Some("AUTENTICACION"),
      Some([("metodo", Texto("credenciales")), ("timestamp", Instante(now))]), ip, ua, Some(true))
  }

  function LoginFallidoData(email: string, razon: string, ip: Option<string>, ua: Option<string>, now: int): (d: LogData)
    ensures var e := ToRow(d, now);
      e.usuarioId.None? && e.accion == LOGIN_FALLIDO && !e.exitoso
      && e.recurso == Some("AUTENTICACION")
  {
    LogData(None, LOGIN_FALLIDO, None, None, Some("AUTENTICACION"),
      Some([("email", Texto(email)), ("razon", Texto(razon)), ("timestamp", Instante(now))]), ip, ua, Some(false))
  }

  function CreacionDenunciaData(usuarioId: Option<string>, denunciaId: string, codigoAnonimo: string, now: int): (d: LogData)
    ensures var e := ToRow(d, now);
      NullNormalised(e.usuarioId, usuarioId) && e.accion == CREAR_DENUNCIA && e.exitoso
      && e.recurso == Some("DENUNCIA:" + denunciaId)
  {
    LogData(usuarioId, CREAR_DENUNCIA, None, None, Some("DENUNCIA:" + denunciaId),
      Some([("codigoAnonimo", Texto(codigoAnonimo)), ("timestamp", Instante(now))]), None, None, Some(true))
  }

  function CambioEstadoData(usuarioId: string, denunciaId: string, anterior: string, nuevo: string, comentario: Option<string>, now: int): (d: LogData)
    ensures var e := ToRow(d, now);
      NullNormalised(e.usuarioId, Some(usuarioId)) && e.accion == CAMBIO_ESTADO_DENUNCIA && e.exitoso
      && e.recurso == Some("DENUNCIA:" + denunciaId)
  {
    LogData(Some(usuarioId), CAMBIO_ESTADO_DENUNCIA, None, None, Some("DENUNCIA:" + denunciaId),
      Some([("estadoAnterior", Texto(anterior)), ("estadoNuevo", Texto(nuevo))]
        + (if comentario.Some? then [("comentario", Texto(comentario.value))] else [])
        + [("timestamp", Instante(now))]),
      None, None, Some(true))
  }

  function AsignacionDenunciaData(adminId: string, denunciaId: string, supervisorId: string, now: int): (d: LogData)
    ensures var e := ToRow(d, now);
      NullNormalised(e.usuarioId, Some(adminId)) && e.accion == ASIGNAR_DENUNCIA && e.exitoso
      && e.recurso == Some("DENUNCIA:" + denunciaId)
  {
    LogData(Some(adminId), ASIGNAR_DENUNCIA, None, None, Some("DENUNCIA:" + denunciaId),
      Some([("supervisorAsignado", Texto(supervisorId)), ("timestamp", Instante(now))]), None, None, Some(true))
  }

  function DerivacionDenunciaData(supervisorId: string, denunciaId: string, institucion: string, now: int): (d: LogData)
    ensures var e := ToRow(d, now);
      NullNormalised(e.usuarioId, Some(supervisorId)) && e.accion == DERIVAR_DENUNCIA && e.exitoso
      && e.recurso == Some("DENUNCIA:" + denunciaId)
  {
    LogData(Some(supervisorId), DERIVAR_DENUNCIA, None, None, Some("DENUNCIA:" + denunciaId),
      Some([("institucion", Texto(institucion)), ("timestamp", Instante(now))]), None, None, Some(true))
  }

  function SubidaEvidenciaData(usuarioId: Option<string>, denunciaId: string, evidenciaId: string, nombreArchivo: string, now: int): (d: LogData)
    ensures var e := ToRow(d, now);
      NullNormalised(e.usuarioId, usuarioId) && e.accion == SUBIR_EVIDENCIA && e.exitoso
      && e.recurso == Some("EVIDENCIA:" + evidenciaId)
  {
    LogData(usuarioId, SUBIR_EVIDENCIA, None, None, Some("EVIDENCIA:" + evidenciaId),
      Some([("denunciaId", Texto(denunciaId)), ("nombreArchivo", Texto(nombreArchivo)), ("timestamp", Instante(now))]),
      None, None, Some(true))
  }

  function AccesoEvidenciaData(usuarioId: string, evidenciaId: string, denunciaId: string, now: int): (d: LogData)
    ensures var e := ToRow(d, now);
      NullNormalised(e.usuarioId, Some(usuarioId)) && e.accion == VER_EVIDENCIA && e.exitoso
      && e.recurso == Some("EVIDENCIA:" + evidenciaId)
  {
    LogData(Some(usuarioId), VER_EVIDENCIA, None, None, Some("EVIDENCIA:" + evidenciaId),
      Some([("denunciaId", Texto(denunciaId)), ("timestamp", Instante(now))]), None, None, Some(true))
  }

  /** registrarCambioEstado: one history row, then one audit row. */
  method RegistrarCambioEstado(db: Db, usuarioId: string, denunciaId: string, anterior: EstadoDenuncia,
                               nuevo: EstadoDenuncia, comentario: Option<string>, now: int)
    returns (r: Option<AuditoriaLog>)
    modifies db`historial, db`logs
    ensures db.historial == old(db.historial)
      + [HistorialDenuncia(denunciaId, anterior, nuevo, OrNull(comentario), usuarioId, now)]
    ensures var d := CambioEstadoData(usuarioId, denunciaId, EstadoName(anterior), EstadoName(nuevo), comentario, now);
      r == Some(ToRow(d, now)) && db.logs == old(db.logs) + [ToRow(d, now)]
  {
    db.historial := db.historial + [HistorialDenuncia(denunciaId, anterior, nuevo, OrNull(comentario), usuarioId, now)];
    r := RegistrarLog(db, CambioEstadoData(usuarioId, denunciaId, EstadoName(anterior), EstadoName(nuevo), comentario, now), now, true);
  }

  function EstadoName(e: EstadoDenuncia): string {
    match e
    case PENDIENTE => "PENDIENTE"
    case EN_REVISION => "EN_REVISION"
    case APROBADA => "APROBADA"
    case DERIVADA => "DERIVADA"
    case CERRADA => "CERRADA"
    case RECHAZADA => "RECHAZADA"
  }

  // ---------------------------------------------------------------------------
  // consultarLogs
  // ---------------------------------------------------------------------------

  datatype Filtros = Filtros(
    usuarioId: Option<string>,
    accion: Option<string>,
    tabla: Option<string>,
    fechaDesde: Option<int>,
    fechaHasta: Option<int>,
    limit: Option<nat>,
    offset: Option<nat>)

  /** The `where` object consultarLogs builds: one equality per truthy filter, a date range. */
  datatype Where = Where(
    usuarioId: Option<string>,
    accion: Option<string>,
    tabla: Option<string>,
    gte: Option<int>,
    lte: Option<int>)

  predicate Truthy(s: Option<string>) {
    s.Some? && s.value != ""
  }

  /** The `where` object selects exactly the rows the filters promise (empty strings ignored, dates as inclusive bounds). */
  function BuildWhere(f: Filtros): (w: Where)
    ensures forall e :: Holds(w, e) <==> Matches(e, f)
  {
    Where(
      if Truthy(f.usuarioId) then f.usuarioId else None,
      if Truthy(f.accion) then f.accion else None,
      if Truthy(f.tabla) then f.tabla else None,
      f.fechaDesde,
      f.fechaHasta)
  }

  /** Prisma's reading of the `where` object for one row. */
  predicate Holds(w: Where, e: AuditoriaLog) {
    && (w.usuarioId.Some? ==> e.usuarioId == w.usuarioId)
    && (w.accion.Some? ==> e.accion == w.accion.value)
    && (w.tabla.Some? ==> e.tabla == w.tabla)
    && (w.gte.Some? ==> w.gte.value <= e.createdAt)
    && (w.lte.Some? ==> e.createdAt <= w.lte.value)
  }

  /** The filters as the query promises them: every given filter is an equality or a bound. */
  ghost predicate Matches(e: AuditoriaLog, f: Filtros) {
    && (f.usuarioId.Some? && f.usuarioId.value != "" ==> e.usuarioId == f.usuarioId)
    && (f.accion.Some? && f.accion.value != "" ==> e.accion == f.accion.value)
    && (f.tabla.Some? && f.tabla.value != "" ==> e.tabla == f.tabla)
    && (f.fechaDesde.Some? ==> f.fechaDesde.value <= e.createdAt <= f.fechaHasta.GetOr(e.createdAt))
    && (f.fechaHasta.Some? ==> f.fechaDesde.GetOr(e.createdAt) <= e.createdAt <= f.fechaHasta.value)
  }

  /** How many rows of `logs` match the filters. */
  ghost function MatchingCount(logs: seq<AuditoriaLog>, f: Filtros): nat {
    if logs == [] then 0
    else (if Matches(logs[0], f) then 1 else 0) + MatchingCount(logs[1..], f)
  }

  function FilterLogs(logs: seq<AuditoriaLog>, w: Where): (r: seq<AuditoriaLog>)
    ensures forall e :: e in r <==> e in logs && Holds(w, e)
    ensures |r| <= |logs|
    ensures multiset(r) <= multiset(logs)
  {
    if logs == [] then []
    else
      var rest := FilterLogs(logs[1..], w);
      assert logs == [logs[0]] + logs[1..];
      if Holds(w, logs[0]) then [logs[0]] + rest else rest
  }

  lemma {:induction false} FilterLogsCount(logs: seq<AuditoriaLog>, f: Filtros)
    ensures |FilterLogs(logs, BuildWhere(f))| == MatchingCount(logs, f)
  {
    if logs != [] {
      FilterLogsCount(logs[1..], f);
    }
  }

  predicate NewerOrSame(a: AuditoriaLog, b: AuditoriaLog) {
    a.createdAt >= b.createdAt
  }

  lemma NewerOrSameIsTotalPreorder()
    ensures TotalPreorder(NewerOrSame)
  {
  }

  /** `take: filtros.limit || 100`: an absent or zero limit means 100. */
  function TakeOf(f: Filtros): (n: nat)
    ensures n >= 1
    ensures f.limit.Some? && f.limit.value > 0 ==> n == f.limit.value
    ensures f.limit.None? || f.limit == Some(0) ==> n == 100
  {
    if f.limit.Some? && f.limit.value != 0 then f.limit.value else 100
  }

  /** `skip: filtros.offset || 0`. */
  function SkipOf(f: Filtros): nat {
    f.offset.GetOr(0)
  }

  /** Prisma's skip-then-take on an ordered result. */
  function Page<T>(s: seq<T>, skip: nat, take: nat): (r: seq<T>)
    ensures |r| == if skip >= |s| then 0 else if take < |s| - skip then take else |s| - skip
    ensures forall i :: 0 <= i < |r| ==> r[i] == s[skip + i]
    ensures multiset(r) <= multiset(s)
  {
    var from := if skip < |s| then skip else |s|;
    var n := if take < |s| - from then take else |s| - from;
    assert s == s[..from] + s[from..][..n] + s[from + n..];
    s[from..][..n]
  }

  /** A page of a sorted sequence is sorted. */
  lemma PageSorted<T>(s: seq<T>, skip: nat, take: nat, leq: (T, T) -> bool)
    requires SortedBy(s, leq)
    ensures SortedBy(Page(s, skip, take), leq)
  {
    var r := Page(s, skip, take);
    forall i, j | 0 <= i < j < |r|
      ensures leq(r[i], r[j])
    {
      assert r[i] == s[skip + i] && r[j] == s[skip + j];
    }
  }

  /** Matching rows created strictly after `t`. */
  ghost function NewerMatches(logs: seq<AuditoriaLog>, f: Filtros, t: int): nat {
    if logs == [] then 0
    else (if Matches(logs[0], f) && logs[0].createdAt > t then 1 else 0) + NewerMatches(logs[1..], f, t)
  }

  /** Matching rows created at `t` or later. */
  ghost function NotOlderMatches(logs: seq<AuditoriaLog>, f: Filtros, t: int): nat {
    if logs == [] then 0
    else (if Matches(logs[0], f) && logs[0].createdAt >= t then 1 else 0) + NotOlderMatches(logs[1..], f, t)
  }

  function After(t: int): AuditoriaLog -> bool {
    (e: AuditoriaLog) => e.createdAt > t
  }

  function NotBefore(t: int): AuditoriaLog -> bool {
    (e: AuditoriaLog) => e.createdAt >= t
  }

  /** Counting by creation time among the filtered rows is counting among the matches. */
  lemma {:induction false} FilteredCounts(logs: seq<AuditoriaLog>, f: Filtros, t: int)
    ensures Count(FilterLogs(logs, BuildWhere(f)), After(t)) == NewerMatches(logs, f, t)
    ensures Count(FilterLogs(logs, BuildWhere(f)), NotBefore(t)) == NotOlderMatches(logs, f, t)
  {
    if logs != [] {
      FilteredCounts(logs[1..], f, t);
      var rest := FilterLogs(logs[1..], BuildWhere(f));
      assert ([logs[0]] + rest)[1..] == rest;
    }
  }

  /**
   * A page of a newest-first sequence is a window of it: for the i-th row of
   * the page, at most `skip + i` rows are strictly newer and more than
   * `skip + i` are no older; without a skip nothing newer than a row of the
   * page is left out of it.
   */
  lemma PageWindow(s: seq<AuditoriaLog>, skip: nat, take: nat)
    requires SortedBy(s, NewerOrSame)
    ensures var r := Page(s, skip, take);
      forall i :: 0 <= i < |r| ==>
        Count(s, After(r[i].createdAt)) <= skip + i < Count(s, NotBefore(r[i].createdAt))
    ensures var r := Page(s, skip, take);
      skip == 0 ==> forall e, x :: e in s && x in r && e.createdAt > x.createdAt ==> e in r
  {
    var r := Page(s, skip, take);
    forall i | 0 <= i < |r|
      ensures Count(s, After(r[i].createdAt)) <= skip + i < Count(s, NotBefore(r[i].createdAt))
    {
      RankOf(s, skip + i);
    }
    if skip == 0 {
      NothingNewerLeftOut(s, take);
    }
  }

  /** Without a skip, a page of a newest-first sequence leaves out nothing newer than one of its rows. */
  lemma NothingNewerLeftOut(s: seq<AuditoriaLog>, take: nat)
    requires SortedBy(s, NewerOrSame)
    ensures var r := Page(s, 0, take);
      forall e, x :: e in s && x in r && e.createdAt > x.createdAt ==> e in r
  {
    var r := Page(s, 0, take);
    forall e, x | e in s && x in r && e.createdAt > x.createdAt
      ensures e in r
    {
      var i :| 0 <= i < |r| && r[i] == x;
      var j :| 0 <= j < |s| && s[j] == e;
      assert s[i] == x;
      assert forall k :: i <= k < |s| ==> s[k].createdAt <= x.createdAt by {
        forall k | i <= k < |s| ensures s[k].createdAt <= x.createdAt {
          if k > i { assert NewerOrSame(s[i], s[k]); }
        }
      }
      assert r[j] == e;
    }
  }

  /** In a newest-first sequence, at most k rows are strictly newer than the k-th and more than k are no older. */
  lemma RankOf(s: seq<AuditoriaLog>, k: nat)
    requires SortedBy(s, NewerOrSame) && k < |s|
    ensures Count(s, After(s[k].createdAt)) <= k < Count(s, NotBefore(s[k].createdAt))
  {
    var t := s[k].createdAt;
    assert forall j :: k <= j < |s| ==> !After(t)(s[j]) by {
      forall j | k <= j < |s| ensures !After(t)(s[j]) {
        if j > k { assert NewerOrSame(s[k], s[j]); }
      }
    }
    CountNoneFrom(s, After(t), k);
    assert forall j :: 0 <= j < k + 1 ==> NotBefore(t)(s[j]) by {
      forall j | 0 <= j < k + 1 ensures NotBefore(t)(s[j]) {
        if j < k { assert NewerOrSame(s[j], s[k]); }
      }
    }
    CountAllBefore(s, NotBefore(t), k + 1);
  }

  /** consultarLogs: matching rows, newest first, `offset` skipped, at most `limit` kept. */
  function ConsultarLogs(logs: seq<AuditoriaLog>, f: Filtros): (r: seq<AuditoriaLog>)
    ensures forall e :: e in r ==> e in logs && Matches(e, f)
    ensures SortedBy(r, NewerOrSame)
    ensures |r| == if SkipOf(f) >= MatchingCount(logs, f) then 0
                   else if TakeOf(f) < MatchingCount(logs, f) - SkipOf(f) then TakeOf(f)
                   else MatchingCount(logs, f) - SkipOf(f)
    ensures multiset(r) <= multiset(logs)
    ensures forall i :: 0 <= i < |r| ==>
      NewerMatches(logs, f, r[i].createdAt) <= SkipOf(f) + i < NotOlderMatches(logs, f, r[i].createdAt)
    ensures SkipOf(f) == 0 ==>
      forall e, x :: e in logs && Matches(e, f) && x in r && e.createdAt > x.createdAt ==> e in r
  {
    NewerOrSameIsTotalPreorder();
    FilterLogsCount(logs, f);
    var matching := FilterLogs(logs, BuildWhere(f));
    var ordered := SortBy(matching, NewerOrSame);
    var r := Page(ordered, SkipOf(f), TakeOf(f));
    PageSorted(ordered, SkipOf(f), TakeOf(f), NewerOrSame);
    MatchesWindow(logs, f, matching, ordered, r);
    r
  }

  /** The window facts of consultarLogs, stated on the stages of its query. */
  lemma MatchesWindow(logs: seq<AuditoriaLog>, f: Filtros, matching: seq<AuditoriaLog>, ordered: seq<AuditoriaLog>,
                      r: seq<AuditoriaLog>)
    requires matching == FilterLogs(logs, BuildWhere(f))
    requires SortedBy(ordered, NewerOrSame) && multiset(ordered) == multiset(matching)
    requires r == Page(ordered, SkipOf(f), TakeOf(f))
    ensures forall e :: e in r ==> e in logs && Matches(e, f)
    ensures multiset(r) <= multiset(logs)
    ensures forall i :: 0 <= i < |r| ==>
      NewerMatches(logs, f, r[i].createdAt) <= SkipOf(f) + i < NotOlderMatches(logs, f, r[i].createdAt)
    ensures SkipOf(f) == 0 ==>
      forall e, x :: e in logs && Matches(e, f) && x in r && e.createdAt > x.createdAt ==> e in r
  {
    PageWindow(ordered, SkipOf(f), TakeOf(f));
    forall i | 0 <= i < |r|
      ensures NewerMatches(logs, f, r[i].createdAt) <= SkipOf(f) + i < NotOlderMatches(logs, f, r[i].createdAt)
    {
      CountPermutation(ordered, matching, After(r[i].createdAt));
      CountPermutation(ordered, matching, NotBefore(r[i].createdAt));
      FilteredCounts(logs, f, r[i].createdAt);
    }
    forall e | e in logs && Matches(e, f) ensures e in ordered {
      assert e in multiset(matching);
    }
    forall e | e in r ensures e in logs && Matches(e, f) {
      assert e in multiset(r);
      assert e in multiset(matching);
    }
  }

  /** With no offset and a limit at least the number of matches, every matching row is returned. */
  lemma ConsultarLogsComplete(logs: seq<AuditoriaLog>, f: Filtros, e: AuditoriaLog)
    requires SkipOf(f) == 0 && TakeOf(f) >= MatchingCount(logs, f)
    requires e in logs && Matches(e, f)
    ensures e in ConsultarLogs(logs, f)
  {
    NewerOrSameIsTotalPreorder();
    FilterLogsCount(logs, f);
    var matching := FilterLogs(logs, BuildWhere(f));
    SortByMembers(matching, NewerOrSame, e);
    var ordered := SortBy(matching, NewerOrSame);
    var i :| 0 <= i < |ordered| && ordered[i] == e;
    assert Page(ordered, 0, TakeOf(f))[i] == e;
  }

  // ---------------------------------------------------------------------------
  // asignarSupervisorAutomatico
  // ---------------------------------------------------------------------------

  predicate Abierta(d: Denuncia) {
    d.estado == PENDIENTE || d.estado == EN_REVISION
  }

  /** The supervisor's open cases (PENDIENTE or EN_REVISION) assigned to them. */
  function Carga(denuncias: seq<Denuncia>, supervisorId: string): nat {
    if denuncias == [] then 0
    else
      var own := if denuncias[0].supervisorId == Some(supervisorId) && Abierta(denuncias[0]) then 1 else 0;
      own + Carga(denuncias[1..], supervisorId)
  }

  predicate SupervisorActivo(u: Usuario) {
    u.rol == SUPERVISOR && u.estado == ACTIVO
  }

  /** The active supervisors, in query order. */
  function SupervisoresActivos(usuarios: seq<Usuario>): (r: seq<Usuario>)
    ensures forall u :: u in r <==> u in usuarios && SupervisorActivo(u)
  {
    if usuarios == [] then []
    else
      assert usuarios == [usuarios[0]] + usuarios[1..];
      (if SupervisorActivo(usuarios[0]) then [usuarios[0]] else []) + SupervisoresActivos(usuarios[1..])
  }

  /** The rules the source fetches: active and covering the category (their order is immaterial, the result is never used). */
  function ReglasActivas(reglas: seq<ReglaSupervisor>, categoria: Categoria): seq<ReglaSupervisor> {
    if reglas == [] then []
    else
      var head := if reglas[0].activa && categoria in reglas[0].categorias then [reglas[0]] else [];
      head + ReglasActivas(reglas[1..], categoria)
  }

  /**
   * The first element of the candidates sorted by load with a stable sort:
   * the earliest supervisor whose load no other candidate undercuts.
   */
  function MenosCarga(sups: seq<Usuario>, denuncias: seq<Denuncia>): (k: nat)
    requires |sups| > 0
    ensures k < |sups|
    ensures forall j :: 0 <= j < |sups| ==> Carga(denuncias, sups[k].id) <= Carga(denuncias, sups[j].id)
    ensures forall j :: 0 <= j < k ==> Carga(denuncias, sups[j].id) > Carga(denuncias, sups[k].id)
  {
    if |sups| == 1 then 0
    else
      var k := MenosCarga(sups[1..], denuncias) + 1;
      if Carga(denuncias, sups[0].id) <= Carga(denuncias, sups[k].id) then 0 else k
  }

  /**
   * asignarSupervisorAutomatico: the least-loaded active supervisor, or null when
   * there is none. The active rules are fetched but play no part in the result.
   */
  function AsignarSupervisorAutomatico(usuarios: seq<Usuario>, denuncias: seq<Denuncia>,
                                       reglas: seq<ReglaSupervisor>, categoria: Categoria): (r: Option<string>)
    ensures r.None? <==> forall u :: u in usuarios ==> !SupervisorActivo(u)
    ensures r.Some? ==> exists s :: s in usuarios && SupervisorActivo(s) && s.id == r.value &&
                          forall u :: u in usuarios && SupervisorActivo(u) ==> Carga(denuncias, s.id) <= Carga(denuncias, u.id)
  {
    var _ := ReglasActivas(reglas, categoria);
    var sups := SupervisoresActivos(usuarios);
    if |sups| == 0 then None
    else
      var k := MenosCarga(sups, denuncias);
      assert sups[k] in sups;
      assert forall u :: u in usuarios && SupervisorActivo(u) ==> Carga(denuncias, sups[k].id) <= Carga(denuncias, u.id) by {
        forall u | u in usuarios && SupervisorActivo(u) ensures Carga(denuncias, sups[k].id) <= Carga(denuncias, u.id) {
          var j :| 0 <= j < |sups| && sups[j] == u;
        }
      }
      Some(sups[k].id)
  }

  /** Ties go to the supervisor that comes first in query order. */
  lemma AsignacionPrefersEarliest(usuarios: seq<Usuario>, denuncias: seq<Denuncia>,
                                  reglas: seq<ReglaSupervisor>, categoria: Categoria)
    requires exists u :: u in usuarios && SupervisorActivo(u)
    ensures var sups := SupervisoresActivos(usuarios);
      |sups| > 0
      && AsignarSupervisorAutomatico(usuarios, denuncias, reglas, categoria) == Some(sups[MenosCarga(sups, denuncias)].id)
      && forall j :: 0 <= j < MenosCarga(sups, denuncias) ==>
           Carga(denuncias, sups[j].id) > Carga(denuncias, sups[MenosCarga(sups, denuncias)].id)
  {
    var u :| u in usuarios && SupervisorActivo(u);
    assert u in SupervisoresActivos(usuarios);
  }

  /** The rule table has no influence on the assignment. */
  lemma AsignacionIgnoresReglas(usuarios: seq<Usuario>, denuncias: seq<Denuncia>,
                                r1: seq<ReglaSupervisor>, r2: seq<ReglaSupervisor>, c1: Categoria, c2: Categoria)
    ensures AsignarSupervisorAutomatico(usuarios, denuncias, r1, c1)
         == AsignarSupervisorAutomatico(usuarios, denuncias, r2, c2)
  {
  }
}
