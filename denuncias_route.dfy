/**
 * /api/denuncias: listing cases (GET) and filing one (POST). The caller comes
 * from `getUserFromToken` with the parameter `verify`. Prisma's
 * case-insensitive `contains` is the parameter `contains(text, search)`; the
 * year, the random draws of the code generator and the new row's id are
 * parameters too.
 */
module DenunciasRoute {
  import opened Wrappers
  import opened Schema
  import opened Sorting
  import opened Auditoria
  import opened Auth
  import opened Session

  /** A query-string value naming a case state, if it names one. */
  function ParseEstado(s: string): (r: Option<EstadoDenuncia>)
    ensures r.Some? ==> EstadoName(r.value) == s
    ensures forall e: EstadoDenuncia :: EstadoName(e) == s ==> r == Some(e)
  {
    if s == "PENDIENTE" then Some(PENDIENTE)
    else if s == "EN_REVISION" then Some(EN_REVISION)
    else if s == "APROBADA" then Some(APROBADA)
    else if s == "DERIVADA" then Some(DERIVADA)
    else if s == "CERRADA" then Some(CERRADA)
    else if s == "RECHAZADA" then Some(RECHAZADA)
    else None
  }

  /** The identity columns of the complainant, loaded only for a DENUNCIANTE caller. */
  datatype Identity = Identity(id: string, email: string, nombre: Option<string>, apellido: Option<string>)

  datatype OwnerView = OwnerView(denuncianteId: Option<string>, denunciante: Option<Identity>)

  /** The selected columns of a case; `owner` is present only when the complainant's data is selected. */
  datatype CaseView = CaseView(
    id: string, codigoAnonimo: string, titulo: string, descripcion: string,
    categoria: Categoria, estado: EstadoDenuncia, prioridad: Prioridad,
    ubicacionGeneral: Option<string>, createdAt: int, owner: Option<OwnerView>)

  datatype Response =
    | Err(status: nat, message: string)
    | Listed(data: seq<CaseView>)
    | Filed(denuncia: CaseView)

  const UNAUTHENTICATED := Err(401, "No autenticado")
  const SERVER_ERROR := Err(500, "Error interno del servidor")

  datatype Query = Query(estado: Option<string>, categoria: Option<string>, search: Option<string>)

  /** The `where` object: ownership by role, then the optional filters. */
  datatype CaseWhere = CaseWhere(
    supervisorId: Option<string>, denuncianteId: Option<string>,
    estado: Option<EstadoDenuncia>, categoria: Option<Categoria>, search: Option<string>)

  predicate Truthy(v: Option<string>) {
    v.Some? && v.value != ""
  }

  /**
   * The `where` for a caller and a query; None when a truthy estado or categoria
   * is not an enum value, which the database refuses (the handler answers 500).
   */
  function BuildWhere(user: Payload, q: Query): (w: Option<CaseWhere>)
    ensures w.Some? <==> ((!Truthy(q.estado) || ParseEstado(q.estado.value).Some?)
                          && (!Truthy(q.categoria) || ParseCategoria(q.categoria.value).Some?))
    ensures w.Some? ==> && (w.value.supervisorId.Some? <==> user.rol == SUPERVISOR)
                        && (w.value.denuncianteId.Some? <==> user.rol == DENUNCIANTE)
                        && (w.value.supervisorId.Some? ==> w.value.supervisorId.value == user.userId)
                        && (w.value.denuncianteId.Some? ==> w.value.denuncianteId.value == user.userId)
                        && (w.value.estado.Some? <==> Truthy(q.estado))
                        && (w.value.categoria.Some? <==> Truthy(q.categoria))
                        && (w.value.search.Some? <==> Truthy(q.search))
  {
    var estado := if Truthy(q.estado) then ParseEstado(q.estado.value) else None;
    var categoria := if Truthy(q.categoria) then ParseCategoria(q.categoria.value) else None;
    if Truthy(q.estado) && estado.None? then None
    else if Truthy(q.categoria) && categoria.None? then None
    else Some(CaseWhere(
      if user.rol == SUPERVISOR then Some(user.userId) else None,
      if user.rol == DENUNCIANTE then Some(user.userId) else None,
      estado, categoria,
      if Truthy(q.search) then q.search else None))
  }

  /** A case passes every clause the `where` holds. */
  predicate Visible(d: Denuncia, w: CaseWhere, contains: (string, string) -> bool) {
    && (w.supervisorId.Some? ==> d.supervisorId == w.supervisorId)
    && (w.denuncianteId.Some? ==> d.denuncianteId == w.denuncianteId)
    && (w.estado.Some? ==> d.estado == w.estado.value)
    && (w.categoria.Some? ==> d.categoria == w.categoria.value)
    && (w.search.Some? ==> contains(d.titulo, w.search.value) || contains(d.codigoAnonimo, w.search.value))
  }

  function FilterCases(ds: seq<Denuncia>, w: CaseWhere, contains: (string, string) -> bool): (r: seq<Denuncia>)
    ensures forall d :: d in r <==> d in ds && Visible(d, w, contains)
  {
    if ds == [] then []
    else (if Visible(ds[0], w, contains) then [ds[0]] else []) + FilterCases(ds[1..], w, contains)
  }

  predicate NewerCase(a: Denuncia, b: Denuncia) {
    a.createdAt >= b.createdAt
  }

  /** `orderBy: { createdAt: 'desc' }`. */
  function ByNewest(ds: seq<Denuncia>): (r: seq<Denuncia>)
    ensures multiset(r) == multiset(ds) && |r| == |ds|
    ensures forall i, j :: 0 <= i < j < |r| ==> r[i].createdAt >= r[j].createdAt
  {
    assert TotalPreorder(NewerCase);
    SortBy(ds, NewerCase)
  }

  function IdentityOf(us: seq<Usuario>, id: Option<string>): Option<Identity> {
    if id.None? then None
    else match IndexOfId(us, id.value)
      case None => None
      case Some(i) => Some(Identity(us[i].id, us[i].email, us[i].nombre, us[i].apellido))
  }

  /** The columns selected for a case: the complainant's only when the caller is a DENUNCIANTE. */
  function View(d: Denuncia, us: seq<Usuario>, withOwner: bool): (v: CaseView)
    ensures v.owner.Some? <==> withOwner
    ensures v.id == d.id && v.codigoAnonimo == d.codigoAnonimo && v.estado == d.estado && v.categoria == d.categoria
    ensures v.createdAt == d.createdAt
  {
    CaseView(d.id, d.codigoAnonimo, d.titulo, d.descripcion, d.categoria, d.estado, d.prioridad,
      d.ubicacionGeneral, d.createdAt,
      if withOwner then Some(OwnerView(d.denuncianteId, IdentityOf(us, d.denuncianteId))) else None)
  }

  function Views(ds: seq<Denuncia>, us: seq<Usuario>, withOwner: bool): (r: seq<CaseView>)
    ensures |r| == |ds| && forall i :: 0 <= i < |ds| ==> r[i] == View(ds[i], us, withOwner)
  {
    seq(|ds|, i requires 0 <= i < |ds| => View(ds[i], us, withOwner))
  }

  /** The listed cases: every visible case once, newest first. */
  function ListCases(ds: seq<Denuncia>, us: seq<Usuario>, w: CaseWhere, contains: (string, string) -> bool, withOwner: bool)
    : (r: seq<CaseView>)
    ensures forall i, j :: 0 <= i < j < |r| ==> r[i].createdAt >= r[j].createdAt
    ensures forall v :: v in r ==> exists d :: d in ds && Visible(d, w, contains) && v == View(d, us, withOwner)
    ensures forall d :: d in ds && Visible(d, w, contains) ==> View(d, us, withOwner) in r
    ensures |r| == |FilterCases(ds, w, contains)|
  {
    var selected := FilterCases(ds, w, contains);
    var ordered := ByNewest(selected);
    ViewsSound(ds, selected, ordered, us, w, contains, withOwner);
    ViewsComplete(ds, selected, ordered, us, w, contains, withOwner);
    Views(ordered, us, withOwner)
  }

  lemma ViewsSound(ds: seq<Denuncia>, selected: seq<Denuncia>, ordered: seq<Denuncia>, us: seq<Usuario>,
                   w: CaseWhere, contains: (string, string) -> bool, withOwner: bool)
    requires multiset(ordered) == multiset(selected)
    requires forall d :: d in selected <==> d in ds && Visible(d, w, contains)
    ensures forall v :: v in Views(ordered, us, withOwner) ==>
      exists d :: d in ds && Visible(d, w, contains) && v == View(d, us, withOwner)
  {
    var r := Views(ordered, us, withOwner);
    forall v | v in r
      ensures exists d :: d in ds && Visible(d, w, contains) && v == View(d, us, withOwner)
    {
      var i :| 0 <= i < |r| && r[i] == v;
      assert ordered[i] in multiset(ordered);
      assert ordered[i] in selected;
    }
  }

  lemma ViewsComplete(ds: seq<Denuncia>, selected: seq<Denuncia>, ordered: seq<Denuncia>, us: seq<Usuario>,
                      w: CaseWhere, contains: (string, string) -> bool, withOwner: bool)
    requires multiset(ordered) == multiset(selected)
    requires forall d :: d in selected <==> d in ds && Visible(d, w, contains)
    ensures forall d :: d in ds && Visible(d, w, contains) ==> View(d, us, withOwner) in Views(ordered, us, withOwner)
  {
    var r := Views(ordered, us, withOwner);
    forall d | d in ds && Visible(d, w, contains)
      ensures View(d, us, withOwner) in r
    {
      assert d in multiset(ordered);
      var i :| 0 <= i < |ordered| && ordered[i] == d;
      assert r[i] == View(d, us, withOwner);
    }
  }

  function OptValor(v: Option<string>): Valor {
    if v.Some? then Texto(v.value) else Nulo
  }

  /** The LISTAR_DENUNCIAS row; the IP is x-forwarded-for, else x-real-ip. */
  function ListarData(user: Payload, q: Query, client: Client, realIp: Option<string>): (d: LogData)
    ensures var e := ToRow(d, 0);
      NullNormalised(e.usuarioId, Some(user.userId)) && e.accion == LISTAR_DENUNCIAS && e.tabla == Some("Denuncia") && e.exitoso
  {
    var ip := if Truthy(client.ip) then client.ip else realIp;
    LogData(Some(user.userId), LISTAR_DENUNCIAS, Some("Denuncia"), None, None,
      Some([("rol", Texto(RolName(user.rol))),
            ("filtros", Objeto([("estado", OptValor(q.estado)), ("categoria", OptValor(q.categoria)), ("search", OptValor(q.search))]))]),
      ip, client.ua, None)
  }

  /** GET: the answer and the audit table afterwards (one LISTAR_DENUNCIAS row after a listing). */
  function GetSpec(ds: seq<Denuncia>, us: seq<Usuario>, logs: seq<AuditoriaLog>, header: Option<string>,
                   verify: string -> Option<Payload>, q: Query, contains: (string, string) -> bool,
                   now: int, client: Client, realIp: Option<string>): (o: (Response, seq<AuditoriaLog>))
    ensures o.0 == UNAUTHENTICATED <==> GetUserFromToken(header, verify).None?
    ensures o.0.Listed? <==> GetUserFromToken(header, verify).Some? && BuildWhere(GetUserFromToken(header, verify).value, q).Some?
    ensures o.0.Listed? ==> o.1 == logs + [ToRow(ListarData(GetUserFromToken(header, verify).value, q, client, realIp), now)]
    ensures !o.0.Listed? ==> o.1 == logs
    ensures o.0.Listed? ==> var user := GetUserFromToken(header, verify).value;
      o.0.data == ListCases(ds, us, BuildWhere(user, q).value, contains, user.rol == DENUNCIANTE)
  {
    match GetUserFromToken(header, verify)
    case None => (UNAUTHENTICATED, logs)
    case Some(user) =>
      match BuildWhere(user, q)
      case None => (SERVER_ERROR, logs)
      case Some(w) =>
        (Listed(ListCases(ds, us, w, contains, user.rol == DENUNCIANTE)),
         logs + [ToRow(ListarData(user, q, client, realIp), now)])
  }

  method Get(db: Db, header: Option<string>, verify: string -> Option<Payload>, q: Query,
             contains: (string, string) -> bool, now: int, client: Client, realIp: Option<string>)
    returns (resp: Response)
    modifies db`logs
    ensures GetSpec(db.denuncias, db.usuarios, old(db.logs), header, verify, q, contains, now, client, realIp)
         == (resp, db.logs)
  {
    var user := GetUserFromToken(header, verify);
    if user.None? {
      return UNAUTHENTICATED;
    }
    var where := BuildWhere(user.value, q);
    if where.None? {
      return SERVER_ERROR;
    }
    var denuncias := ListCases(db.denuncias, db.usuarios, where.value, contains, user.value.rol == DENUNCIANTE);
    var _ := RegistrarLog(db, ListarData(user.value, q, client, realIp), now, true);
    return Listed(denuncias);
  }

  /**
   * Visibility by role: a SUPERVISOR sees only the cases assigned to them, a
   * DENUNCIANTE only their own, an ADMIN any; the estado and categoria filters
   * apply on top, and only a DENUNCIANTE receives complainant data.
   */
  lemma RoleScopedVisibility(ds: seq<Denuncia>, us: seq<Usuario>, logs: seq<AuditoriaLog>, header: Option<string>,
                             verify: string -> Option<Payload>, q: Query, contains: (string, string) -> bool,
                             now: int, client: Client, realIp: Option<string>, v: CaseView)
    requires var r := GetSpec(ds, us, logs, header, verify, q, contains, now, client, realIp).0;
      r.Listed? && v in r.data
    ensures var user := GetUserFromToken(header, verify).value;
      exists d :: d in ds && d.id == v.id
        && (user.rol == SUPERVISOR ==> d.supervisorId == Some(user.userId))
        && (user.rol == DENUNCIANTE ==> d.denuncianteId == Some(user.userId))
        && (Truthy(q.estado) ==> EstadoName(d.estado) == q.estado.value)
        && (Truthy(q.categoria) ==> CategoriaName(d.categoria) == q.categoria.value)
        && (v.owner.Some? <==> user.rol == DENUNCIANTE)
  {
    var user := GetUserFromToken(header, verify).value;
    var w := BuildWhere(user, q).value;
    var d :| d in ds && Visible(d, w, contains) && v == View(d, us, user.rol == DENUNCIANTE);
    assert d.id == v.id;
  }

  // ---------------------------------------------------------------------------
  // POST
  // ---------------------------------------------------------------------------

  datatype CaseBody = CaseBody(
    titulo: Option<string>, descripcion: Option<string>, categoria: Option<string>,
    prioridad: Option<string>, ubicacionGeneral: Option<string>)

  /** crearDenunciaSchema. */
  predicate ValidBody(b: CaseBody) {
    && b.titulo.Some? && |b.titulo.value| >= 10
    && b.descripcion.Some? && |b.descripcion.value| >= 50
    && b.categoria.Some? && ParseCategoria(b.categoria.value).Some?
    && b.prioridad.Some? && ParsePrioridad(b.prioridad.value).Some?
  }

  const ONLY_COMPLAINANTS := Err(403, "Solo los denunciantes pueden crear denuncias")
  const INVALID_DATA := Err(400, "Datos inválidos")

  datatype Outcome = Outcome(resp: Response, denuncias: seq<Denuncia>, logs: seq<AuditoriaLog>)

  /**
   * POST on the tables as they are before the request. `draws` are the random
   * numbers the code generator consumes; running out of them stands in for the
   * generator's unbounded retries and is answered like any other failure (500).
   */
  function PostSpec(ds: seq<Denuncia>, us: seq<Usuario>, reglas: seq<ReglaSupervisor>, logs: seq<AuditoriaLog>,
                    header: Option<string>, verify: string -> Option<Payload>, b: CaseBody,
                    year: nat, draws: seq<real>, newId: string, now: int): (o: Outcome)
    requires forall i :: 0 <= i < |draws| ==> 0.0 <= draws[i] < 1.0
    ensures o.resp.Filed? ==> |o.denuncias| == |ds| + 1 && o.denuncias[..|ds|] == ds && logs <= o.logs && |o.logs| == |logs| + 1
    ensures !o.resp.Filed? ==> o.denuncias == ds && o.logs == logs
  {
    var user := GetUserFromToken(header, verify);
    if user.Some? && user.value.rol != DENUNCIANTE then Outcome(ONLY_COMPLAINANTS, ds, logs)
    else if !ValidBody(b) then Outcome(INVALID_DATA, ds, logs)
    else match GenerateCodigoAnonimo(ds, year, draws)
      case None => Outcome(SERVER_ERROR, ds, logs)
      case Some(codigo) =>
        FileCase(ds, us, reglas, logs, if user.Some? then Some(user.value.userId) else None, b, codigo, newId, now)
  }

  /** The insert once the gate, the schema and the code generator have passed. */
  function FileCase(ds: seq<Denuncia>, us: seq<Usuario>, reglas: seq<ReglaSupervisor>, logs: seq<AuditoriaLog>,
                    owner: Option<string>, b: CaseBody, codigo: string, newId: string, now: int): (o: Outcome)
    requires ValidBody(b)
    ensures o.resp.Filed? && |o.denuncias| == |ds| + 1 && o.denuncias[..|ds|] == ds
    ensures |o.logs| == |logs| + 1 && o.logs[..|logs|] == logs && o.logs[|logs|].accion == CREAR_DENUNCIA
    ensures var d := o.denuncias[|ds|];
      && d.id == newId && d.codigoAnonimo == codigo && d.estado == PENDIENTE && d.denuncianteId == owner
      && CategoriaName(d.categoria) == b.categoria.value
      && d.supervisorId == AsignarSupervisorAutomatico(us, ds, reglas, d.categoria)
  {
    var categoria := ParseCategoria(b.categoria.value).value;
    var supervisorId := AsignarSupervisorAutomatico(us, ds, reglas, categoria);
    var d := Denuncia(newId, codigo, b.titulo.value, b.descripcion.value, categoria, PENDIENTE,
      ParsePrioridad(b.prioridad.value).value, b.ubicacionGeneral, owner, supervisorId, now);
    Outcome(Filed(View(d, us, false)), ds + [d], logs + [ToRow(CreacionDenunciaData(owner, newId, codigo, now), now)])
  }

  /** Past the gate, the schema and the code generator, the handler goes on to the insert. */
  lemma PostReachesInsert(ds: seq<Denuncia>, us: seq<Usuario>, reglas: seq<ReglaSupervisor>, logs: seq<AuditoriaLog>,
                          header: Option<string>, verify: string -> Option<Payload>, b: CaseBody,
                          year: nat, draws: seq<real>, newId: string, now: int)
    requires forall i :: 0 <= i < |draws| ==> 0.0 <= draws[i] < 1.0
    requires GetUserFromToken(header, verify).None? || GetUserFromToken(header, verify).value.rol == DENUNCIANTE
    requires ValidBody(b) && GenerateCodigoAnonimo(ds, year, draws).Some?
    ensures var user := GetUserFromToken(header, verify);
      PostSpec(ds, us, reglas, logs, header, verify, b, year, draws, newId, now)
      == FileCase(ds, us, reglas, logs, if user.Some? then Some(user.value.userId) else None, b,
                  GenerateCodigoAnonimo(ds, year, draws).value, newId, now)
  {
  }

  method Post(db: Db, header: Option<string>, verify: string -> Option<Payload>, b: CaseBody,
              year: nat, draws: seq<real>, newId: string, now: int) returns (resp: Response)
    requires forall i :: 0 <= i < |draws| ==> 0.0 <= draws[i] < 1.0
    modifies db`denuncias, db`logs
    ensures PostSpec(old(db.denuncias), db.usuarios, db.reglas, old(db.logs), header, verify, b, year, draws, newId, now)
         == Outcome(resp, db.denuncias, db.logs)
  {
    var user := GetUserFromToken(header, verify);
    if user.Some? && user.value.rol != DENUNCIANTE {
      return ONLY_COMPLAINANTS;
    }
    if !ValidBody(b) {
      return INVALID_DATA;
    }
    var codigoAnonimo := GenerateCodigoAnonimo(db.denuncias, year, draws);
    if codigoAnonimo.None? {
      return SERVER_ERROR;
    }
    var owner := if user.Some? then Some(user.value.userId) else None;
    PostReachesInsert(db.denuncias, db.usuarios, db.reglas, db.logs, header, verify, b, year, draws, newId, now);
    resp := InsertCase(db, owner, b, codigoAnonimo.value, newId, now);
  }

  /** The insert and its audit row, once the handler's checks have passed. */
  method InsertCase(db: Db, owner: Option<string>, b: CaseBody, codigo: string, newId: string, now: int)
    returns (resp: Response)
    requires ValidBody(b)
    modifies db`denuncias, db`logs
    ensures FileCase(old(db.denuncias), db.usuarios, db.reglas, old(db.logs), owner, b, codigo, newId, now)
         == Outcome(resp, db.denuncias, db.logs)
  {
    var categoria := ParseCategoria(b.categoria.value).value;
    var supervisorId := AsignarSupervisorAutomatico(db.usuarios, db.denuncias, db.reglas, categoria);
    var denuncia := Denuncia(newId, codigo, b.titulo.value, b.descripcion.value, categoria, PENDIENTE,
      ParsePrioridad(b.prioridad.value).value, b.ubicacionGeneral, owner, supervisorId, now);
    db.denuncias := db.denuncias + [denuncia];
    var _ := RegistrarLog(db, CreacionDenunciaData(owner, newId, codigo, now), now, true);
    return Filed(View(denuncia, db.usuarios, false));
  }

  /**
   * Who may file: an authenticated caller must be a DENUNCIANTE (else 403 and
   * nothing stored); an anonymous case is allowed and carries no complainant.
   */
  lemma FilingGate(ds: seq<Denuncia>, us: seq<Usuario>, reglas: seq<ReglaSupervisor>, logs: seq<AuditoriaLog>,
                   header: Option<string>, verify: string -> Option<Payload>, b: CaseBody,
                   year: nat, draws: seq<real>, newId: string, now: int)
    requires forall i :: 0 <= i < |draws| ==> 0.0 <= draws[i] < 1.0
    ensures var o := PostSpec(ds, us, reglas, logs, header, verify, b, year, draws, newId, now);
      var user := GetUserFromToken(header, verify);
      && (user.Some? && user.value.rol != DENUNCIANTE ==> o == Outcome(ONLY_COMPLAINANTS, ds, logs))
      && (o.resp.Filed? ==> ValidBody(b) && (user.None? || user.value.rol == DENUNCIANTE))
      && (o.resp.Filed? && user.None? ==> o.denuncias[|ds|].denuncianteId.None?)
      && (o.resp.Filed? && user.Some? ==> o.denuncias[|ds|].denuncianteId == Some(user.value.userId))
  {
  }

  /**
   * A filed case starts PENDIENTE, carries a fresh DEN-<year>-NNNN code and the
   * supervisor the automatic assignment picks (possibly none).
   */
  lemma FiledCaseInitialState(ds: seq<Denuncia>, us: seq<Usuario>, reglas: seq<ReglaSupervisor>, logs: seq<AuditoriaLog>,
                              header: Option<string>, verify: string -> Option<Payload>, b: CaseBody,
                              year: nat, draws: seq<real>, newId: string, now: int)
    requires forall i :: 0 <= i < |draws| ==> 0.0 <= draws[i] < 1.0
    requires PostSpec(ds, us, reglas, logs, header, verify, b, year, draws, newId, now).resp.Filed?
    ensures var o := PostSpec(ds, us, reglas, logs, header, verify, b, year, draws, newId, now);
      var d := o.denuncias[|ds|];
      && d.estado == PENDIENTE
      && CategoriaName(d.categoria) == b.categoria.value
      && d.supervisorId == AsignarSupervisorAutomatico(us, ds, reglas, d.categoria)
      && IsCodigoAnonimo(d.codigoAnonimo, year) && !CodigoTaken(ds, d.codigoAnonimo)
      && o.logs[|logs|].accion == CREAR_DENUNCIA
  {
  }
}
