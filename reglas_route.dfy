/**
 * /api/reglas-supervisor: the administrator's supervisor-assignment rules.
 * GET lists them by priority; POST validates a rule and inserts it. The
 * caller comes from `getUserFromToken` with the parameter `verify`; the id of
 * the inserted row is the parameter `newId`.
 */
module ReglasRoute {
  import opened Wrappers
  import opened Schema
  import opened Sorting
  import opened Auditoria
  import opened Session

  datatype Response =
    | Err(status: nat, message: string)
    | Rules(data: seq<ReglaSupervisor>)
    | Created(regla: ReglaSupervisor)

  const UNAUTHENTICATED := Err(401, "No autenticado")
  const INVALID_DATA := Err(400, "Datos inválidos")

  /** 401 unless a bearer token verifies; 403 (with the handler's message) unless the caller is ADMIN. */
  function Gate(header: Option<string>, verify: string -> Option<Payload>, forbidden: string): (r: Option<Response>)
    ensures r == Some(UNAUTHENTICATED) <==> GetUserFromToken(header, verify).None?
    ensures r == Some(Err(403, forbidden)) <==>
      GetUserFromToken(header, verify).Some? && GetUserFromToken(header, verify).value.rol != ADMIN
    ensures r.None? <==> GetUserFromToken(header, verify).Some? && GetUserFromToken(header, verify).value.rol == ADMIN
  {
    match GetUserFromToken(header, verify)
    case None => Some(UNAUTHENTICATED)
    case Some(user) => if user.rol != ADMIN then Some(Err(403, forbidden)) else None
  }

  const GET_FORBIDDEN := "Solo los administradores pueden gestionar reglas de supervisores"
  const POST_FORBIDDEN := "Solo los administradores pueden crear reglas de supervisores"

  /** `orderBy: [{ prioridad: 'desc' }, { createdAt: 'desc' }]`. */
  predicate RuleBefore(a: ReglaSupervisor, b: ReglaSupervisor) {
    a.prioridad > b.prioridad || (a.prioridad == b.prioridad && a.createdAt >= b.createdAt)
  }

  lemma RuleBeforeIsTotalPreorder()
    ensures TotalPreorder(RuleBefore)
  {
  }

  function ListRules(reglas: seq<ReglaSupervisor>): (r: seq<ReglaSupervisor>)
    ensures multiset(r) == multiset(reglas)
    ensures forall i, j :: 0 <= i < j < |r| ==>
      r[i].prioridad > r[j].prioridad || (r[i].prioridad == r[j].prioridad && r[i].createdAt >= r[j].createdAt)
  {
    RuleBeforeIsTotalPreorder();
    SortBy(reglas, RuleBefore)
  }

  function GetSpec(reglas: seq<ReglaSupervisor>, header: Option<string>, verify: string -> Option<Payload>): (r: Response)
    ensures r.Rules? <==> Gate(header, verify, GET_FORBIDDEN).None?
    ensures r.Rules? ==> r.data == ListRules(reglas)
    ensures !r.Rules? ==> r == Gate(header, verify, GET_FORBIDDEN).value
  {
    match Gate(header, verify, GET_FORBIDDEN)
    case Some(denied) => denied
    case None => Rules(ListRules(reglas))
  }

  /** The POST body as received; `prioridad` is a JSON integer when present. */
  datatype RuleBody = RuleBody(
    nombre: Option<string>, descripcion: Option<string>, categorias: Option<seq<string>>,
    prioridad: Option<int>, activa: Option<bool>)

  /** Each entry names one of the six categories. */
  function ParseCategorias(ss: seq<string>): (r: Option<seq<Categoria>>)
    ensures r.Some? <==> forall i :: 0 <= i < |ss| ==> ParseCategoria(ss[i]).Some?
    ensures r.Some? ==> |r.value| == |ss| && forall i :: 0 <= i < |ss| ==> CategoriaName(r.value[i]) == ss[i]
  {
    if ss == [] then Some([])
    else
      match (ParseCategoria(ss[0]), ParseCategorias(ss[1..]))
      case (Some(c), Some(rest)) =>
        assert forall i :: 1 <= i < |ss| ==> ss[i] == ss[1..][i - 1];
        Some([c] + rest)
      case (_, _) =>
        assert ParseCategorias(ss[1..]).None? ==> exists i :: 1 <= i < |ss| && ParseCategoria(ss[i]).None? by {
          if ParseCategorias(ss[1..]).None? {
            var j :| 0 <= j < |ss[1..]| && ParseCategoria(ss[1..][j]).None?;
            assert ss[j + 1] == ss[1..][j];
          }
        }
        None
  }

  /** crearReglaSchema. */
  predicate ValidBody(b: RuleBody) {
    && b.nombre.Some? && |b.nombre.value| >= 3
    && b.categorias.Some? && |b.categorias.value| >= 1 && ParseCategorias(b.categorias.value).Some?
    && (b.prioridad.None? || b.prioridad.value >= 0)
  }

  /** The inserted rule: prioridad defaults to 0, activa to true, and no supervisor is linked. */
  function NewRule(b: RuleBody, newId: string, now: int): (r: ReglaSupervisor)
    requires ValidBody(b)
    ensures r.id == newId && r.nombre == b.nombre.value && r.descripcion == b.descripcion
    ensures r.categorias == ParseCategorias(b.categorias.value).value && |r.categorias| >= 1
    ensures r.prioridad == (if b.prioridad.Some? then b.prioridad.value else 0)
    ensures r.activa == (b.activa.None? || b.activa.value)
    ensures r.supervisorId.None? && r.createdAt == now
  {
    ReglaSupervisor(newId, b.nombre.value, b.descripcion, ParseCategorias(b.categorias.value).value,
      if b.prioridad.Some? then b.prioridad.value else 0,
      if b.activa.Some? then b.activa.value else true,
      None, now)
  }

  /** The audit row; the IP is x-forwarded-for, else x-real-ip. */
  function CrearReglaData(user: Payload, regla: ReglaSupervisor, client: Client, realIp: Option<string>): (d: LogData)
    ensures var e := ToRow(d, 0);
      && NullNormalised(e.usuarioId, Some(user.userId)) && e.accion == CREAR_REGLA_SUPERVISOR
      && e.tabla == Some("ReglaSupervisor") && NullNormalised(e.registroId, Some(regla.id)) && e.exitoso
  {
    var ip := if client.ip.Some? && client.ip.value != "" then client.ip else realIp;
    LogData(Some(user.userId), CREAR_REGLA_SUPERVISOR, Some("ReglaSupervisor"), Some(regla.id), None,
      Some([("nombre", Texto(regla.nombre)),
            ("categorias", Lista(seq(|regla.categorias|, i requires 0 <= i < |regla.categorias| => CategoriaName(regla.categorias[i])))),
            ("prioridad", Entero(regla.prioridad))]),
      ip, client.ua, None)
  }

  datatype Outcome = Outcome(resp: Response, reglas: seq<ReglaSupervisor>, logs: seq<AuditoriaLog>)

  function PostSpec(reglas: seq<ReglaSupervisor>, logs: seq<AuditoriaLog>, header: Option<string>,
                    verify: string -> Option<Payload>, b: RuleBody, newId: string, now: int,
                    client: Client, realIp: Option<string>): (o: Outcome)
    ensures o.resp.Created? <==> Gate(header, verify, POST_FORBIDDEN).None? && ValidBody(b)
    ensures o.resp.Created? ==> o.reglas == reglas + [o.resp.regla] && |o.logs| == |logs| + 1 && logs <= o.logs
    ensures !o.resp.Created? ==> o.reglas == reglas && o.logs == logs
    ensures o.resp.Created? ==>
      && ValidBody(b) && GetUserFromToken(header, verify).Some?
      && o.resp.regla == NewRule(b, newId, now)
      && o.logs == logs + [ToRow(CrearReglaData(GetUserFromToken(header, verify).value, o.resp.regla, client, realIp), now)]
    ensures !o.resp.Created? ==>
      o.resp == if Gate(header, verify, POST_FORBIDDEN).Some? then Gate(header, verify, POST_FORBIDDEN).value else INVALID_DATA
  {
    match Gate(header, verify, POST_FORBIDDEN)
    case Some(denied) => Outcome(denied, reglas, logs)
    case None =>
      if !ValidBody(b) then Outcome(INVALID_DATA, reglas, logs)
      else
        var regla := NewRule(b, newId, now);
        var user := GetUserFromToken(header, verify).value;
        Outcome(Created(regla), reglas + [regla], logs + [ToRow(CrearReglaData(user, regla, client, realIp), now)])
  }

  method Post(db: Db, header: Option<string>, verify: string -> Option<Payload>, b: RuleBody, newId: string,
              now: int, client: Client, realIp: Option<string>) returns (resp: Response)
    modifies db`reglas, db`logs
    ensures PostSpec(old(db.reglas), old(db.logs), header, verify, b, newId, now, client, realIp)
         == Outcome(resp, db.reglas, db.logs)
  {
    var user := GetUserFromToken(header, verify);
    if user.None? {
      return UNAUTHENTICATED;
    }
    if user.value.rol != ADMIN {
      return Err(403, POST_FORBIDDEN);
    }
    if !ValidBody(b) {
      return INVALID_DATA;
    }
    var regla := NewRule(b, newId, now);
    db.reglas := db.reglas + [regla];
    var _ := RegistrarLog(db, CrearReglaData(user.value, regla, client, realIp), now, true);
    return Created(regla);
  }

  /**
   * Nothing stops a second rule with the same categories and priority: posting
   * the same valid body twice stores two active rules that agree on both.
   */
  lemma DuplicateRulesAccepted(reglas: seq<ReglaSupervisor>, logs: seq<AuditoriaLog>, header: Option<string>,
                               verify: string -> Option<Payload>, b: RuleBody, id1: string, id2: string,
                               now: int, client: Client, realIp: Option<string>)
    requires Gate(header, verify, POST_FORBIDDEN).None? && ValidBody(b) && b.activa.None?
    ensures var first := PostSpec(reglas, logs, header, verify, b, id1, now, client, realIp);
      var second := PostSpec(first.reglas, first.logs, header, verify, b, id2, now, client, realIp);
      && |second.reglas| == |reglas| + 2
      && second.reglas[|reglas|].activa && second.reglas[|reglas| + 1].activa
      && second.reglas[|reglas|].categorias == second.reglas[|reglas| + 1].categorias
      && second.reglas[|reglas|].prioridad == second.reglas[|reglas| + 1].prioridad
  {
  }
}
