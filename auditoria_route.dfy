/**
 * GET /api/auditoria: an ADMIN reads the audit trail through consultarLogs,
 * with a page, the page size and the number of all matching rows, and the
 * read itself is then logged.
 */
module AuditoriaRoute {
  import opened Wrappers
  import opened Schema
  import opened Session
  import opened Auditoria

  /**
   * The query string after parsing: an absent or empty parameter is None;
   * dates are instants in milliseconds, limit and offset whole numbers.
   */
  datatype Params = Params(
    usuarioId: Option<string>,
    accion: Option<string>,
    tabla: Option<string>,
    fechaDesde: Option<int>,
    fechaHasta: Option<int>,
    limit: Option<nat>,
    offset: Option<nat>)

  datatype Meta = Meta(limit: nat, offset: nat, count: nat, total: nat)

  datatype Response =
    | Unauthenticated
    | Forbidden
    | Ok(data: seq<AuditoriaLog>, meta: Meta)

  function Status(r: Response): nat {
    match r
    case Unauthenticated => 401
    case Forbidden => 403
    case Ok(_, _) => 200
  }

  /** The row count used for `total`: the second query asks for at most this many rows. */
  const TOTAL_CAP: nat := 999999

  /** `limitStr ? parseInt(limitStr) : 100` and `offsetStr ? parseInt(offsetStr) : 0`. */
  function LimitOf(p: Params): nat {
    p.limit.GetOr(100)
  }

  function OffsetOf(p: Params): nat {
    p.offset.GetOr(0)
  }

  function PageFilters(p: Params): Filtros {
    Filtros(p.usuarioId, p.accion, p.tabla, p.fechaDesde, p.fechaHasta, Some(LimitOf(p)), Some(OffsetOf(p)))
  }

  function TotalFilters(p: Params): Filtros {
    Filtros(p.usuarioId, p.accion, p.tabla, p.fechaDesde, p.fechaHasta, Some(TOTAL_CAP), Some(0))
  }

  /** The audit row for the read: the filters given and how many rows were returned; the IP is x-forwarded-for, else x-real-ip. */
  function ConsultaData(caller: Payload, p: Params, returned: nat, client: Client, realIp: Option<string>): LogData {
    var filtros :=
      (if p.usuarioId.Some? then [("usuarioId", Texto(p.usuarioId.value))] else [])
      + (if p.accion.Some? then [("accion", Texto(p.accion.value))] else [])
      + (if p.tabla.Some? then [("tabla", Texto(p.tabla.value))] else [])
      + (if p.fechaDesde.Some? then [("fechaDesde", Instante(p.fechaDesde.value))] else [])
      + (if p.fechaHasta.Some? then [("fechaHasta", Instante(p.fechaHasta.value))] else []);
    LogData(Some(caller.userId), CONSULTA_AUDITORIA, Some("AuditoriaLog"), None, None,
      Some([("filtros", Objeto(filtros)), ("cantidadResultados", Entero(returned))]),
      if client.ip.Some? && client.ip.value != "" then client.ip else realIp, client.ua, None)
  }

  /** The response for a caller (None: no verified bearer token) on the log table as it was. */
  function AuditoriaSpec(logs: seq<AuditoriaLog>, caller: Option<Payload>, p: Params): (r: Response)
    ensures caller.None? <==> r == Unauthenticated
    ensures caller.Some? && caller.value.rol != ADMIN <==> r == Forbidden
    ensures r.Ok? ==>
      && r.data == ConsultarLogs(logs, PageFilters(p))
      && r.meta.limit == LimitOf(p) && r.meta.offset == OffsetOf(p)
      && r.meta.count == |r.data|
      && r.meta.total == if MatchingCount(logs, PageFilters(p)) < TOTAL_CAP then MatchingCount(logs, PageFilters(p)) else TOTAL_CAP
  {
    if caller.None? then Unauthenticated
    else if caller.value.rol != ADMIN then Forbidden
    else
      var page := ConsultarLogs(logs, PageFilters(p));
      var all := ConsultarLogs(logs, TotalFilters(p));
      assert MatchingCount(logs, TotalFilters(p)) == MatchingCount(logs, PageFilters(p)) by {
        SameFiltersSameCount(logs, PageFilters(p), TotalFilters(p));
      }
      Ok(page, Meta(LimitOf(p), OffsetOf(p), |page|, |all|))
  }

  /** Limit and offset play no part in which rows match. */
  lemma {:induction false} SameFiltersSameCount(logs: seq<AuditoriaLog>, f: Filtros, g: Filtros)
    requires f.(limit := g.limit, offset := g.offset) == g
    ensures MatchingCount(logs, f) == MatchingCount(logs, g)
  {
    if logs != [] {
      SameFiltersSameCount(logs[1..], f, g);
    }
  }

  /** The handler: answer from the table as it is, then append the CONSULTA_AUDITORIA row. */
  method GetAuditoria(db: Db, header: Option<string>, verify: string -> Option<Payload>, p: Params, now: int,
                      client: Client, realIp: Option<string>) returns (r: Response)
    modifies db`logs
    ensures r == AuditoriaSpec(old(db.logs), GetUserFromToken(header, verify), p)
    ensures r.Ok? ==> db.logs == old(db.logs) + [ToRow(ConsultaData(GetUserFromToken(header, verify).value, p, |r.data|, client, realIp), now)]
    ensures !r.Ok? ==> db.logs == old(db.logs)
  {
    var user := GetUserFromToken(header, verify);
    if user.None? {
      return Unauthenticated;
    }
    if user.value.rol != ADMIN {
      return Forbidden;
    }
    var logs := ConsultarLogs(db.logs, PageFilters(p));
    var totalLogs := ConsultarLogs(db.logs, TotalFilters(p));
    var _ := RegistrarLog(db, ConsultaData(user.value, p, |logs|, client, realIp), now, true);
    r := Ok(logs, Meta(LimitOf(p), OffsetOf(p), |logs|, |totalLogs|));
  }

  /** Defaults: no limit means 100 rows, no offset means from the newest. */
  lemma Defaults(logs: seq<AuditoriaLog>, caller: Payload, p: Params)
    requires caller.rol == ADMIN && p.limit.None? && p.offset.None?
    ensures var r := AuditoriaSpec(logs, Some(caller), p);
      r.Ok? && r.meta.limit == 100 && r.meta.offset == 0 && |r.data| <= 100
  {
  }

  /** A limit of 0 is reported as 0 but still returns up to 100 rows, as consultarLogs reads 0 as 100. */
  lemma ZeroLimitQuirk(logs: seq<AuditoriaLog>, caller: Payload, p: Params)
    requires caller.rol == ADMIN && p.limit == Some(0) && p.offset == Some(0)
    requires MatchingCount(logs, PageFilters(p)) >= 100
    ensures var r := AuditoriaSpec(logs, Some(caller), p);
      r.Ok? && r.meta.limit == 0 && |r.data| == 100
  {
  }

  /** Every returned row was already in the table: the row logging this read is never in its own answer. */
  lemma AnswerPrecedesSelfLog(logs: seq<AuditoriaLog>, caller: Option<Payload>, p: Params)
    ensures var r := AuditoriaSpec(logs, caller, p);
      r.Ok? ==> forall e :: e in r.data ==> e in logs
  {
  }
}
