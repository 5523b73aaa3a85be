/**
 * /api/chat/directo: direct messages between a complainant and the supervisor
 * of one of their cases. The caller is read with
 * `authorization.replace("Bearer ", "")` and the parameter `verify`; the id of
 * a created message is the parameter `newId`.
 */
module ChatDirectoRoute {
  import opened Wrappers
  import opened Schema
  import opened Sorting
  import opened Session

  /** The case links the two users, one as complainant and the other as supervisor. */
  predicate Links(d: Denuncia, a: string, b: string) {
    (d.denuncianteId == Some(a) && d.supervisorId == Some(b)) || (d.denuncianteId == Some(b) && d.supervisorId == Some(a))
  }

  /** `findFirst` over the OR of both orientations: the first linking case in table order. */
  function SharedCase(ds: seq<Denuncia>, a: string, b: string): (r: Option<Denuncia>)
    ensures r.None? <==> forall d :: d in ds ==> !Links(d, a, b)
    ensures r.Some? ==> r.value in ds && Links(r.value, a, b)
  {
    if ds == [] then None
    else if Links(ds[0], a, b) then Some(ds[0])
    else SharedCase(ds[1..], a, b)
  }

  /** The permission is symmetric: both users find the very same case. */
  lemma {:induction false} SharedCaseSymmetric(ds: seq<Denuncia>, a: string, b: string)
    ensures SharedCase(ds, a, b) == SharedCase(ds, b, a)
  {
    if ds != [] {
      assert Links(ds[0], a, b) <==> Links(ds[0], b, a);
      SharedCaseSymmetric(ds[1..], a, b);
    }
  }

  /** The message was sent from one of the two users to the other. */
  predicate Between(m: MensajeChat, a: string, b: string) {
    (m.usuarioId == a && m.destinatarioId == b) || (m.usuarioId == b && m.destinatarioId == a)
  }

  function FilterBetween(ms: seq<MensajeChat>, a: string, b: string): (r: seq<MensajeChat>)
    ensures forall m :: m in r <==> m in ms && Between(m, a, b)
  {
    if ms == [] then []
    else (if Between(ms[0], a, b) then [ms[0]] else []) + FilterBetween(ms[1..], a, b)
  }

  predicate OlderMessage(x: MensajeChat, y: MensajeChat) {
    x.createdAt <= y.createdAt
  }

  /** One formatted message: `esPropio` marks the caller's own. */
  datatype MessageView = MessageView(id: string, mensaje: string, rol: Option<Rol>, esPropio: bool, createdAt: int)

  function SenderRol(us: seq<Usuario>, id: string): Option<Rol> {
    match IndexOfId(us, id)
    case None => None
    case Some(i) => Some(us[i].rol)
  }

  function Format(m: MensajeChat, us: seq<Usuario>, me: string): (v: MessageView)
    ensures v.esPropio <==> m.usuarioId == me
    ensures v.id == m.id && v.mensaje == m.mensaje && v.createdAt == m.createdAt
  {
    MessageView(m.id, m.mensaje, SenderRol(us, m.usuarioId), m.usuarioId == me, m.createdAt)
  }

  /** `orderBy: { createdAt: "asc" }`. */
  function ByOldest(ms: seq<MensajeChat>): (r: seq<MensajeChat>)
    ensures multiset(r) == multiset(ms) && |r| == |ms|
    ensures forall i, j :: 0 <= i < j < |r| ==> r[i].createdAt <= r[j].createdAt
  {
    assert TotalPreorder(OlderMessage);
    SortBy(ms, OlderMessage)
  }

  function FormatAll(ms: seq<MensajeChat>, us: seq<Usuario>, me: string): (r: seq<MessageView>)
    ensures |r| == |ms| && forall i :: 0 <= i < |ms| ==> r[i] == Format(ms[i], us, me)
  {
    seq(|ms|, i requires 0 <= i < |ms| => Format(ms[i], us, me))
  }

  lemma FormatAllMembers(ms: seq<MensajeChat>, us: seq<Usuario>, me: string)
    ensures forall v :: v in FormatAll(ms, us, me) ==> exists m :: m in multiset(ms) && v == Format(m, us, me)
    ensures forall m :: m in multiset(ms) ==> Format(m, us, me) in FormatAll(ms, us, me)
  {
    var r := FormatAll(ms, us, me);
    forall v | v in r
      ensures exists m :: m in multiset(ms) && v == Format(m, us, me)
    {
      var i :| 0 <= i < |r| && r[i] == v;
      assert ms[i] in multiset(ms);
    }
    forall m | m in multiset(ms)
      ensures Format(m, us, me) in r
    {
      var i :| 0 <= i < |ms| && ms[i] == m;
      assert r[i] == Format(m, us, me);
    }
  }

  /** The conversation: every message between the two users, oldest first. */
  function Conversation(ms: seq<MensajeChat>, us: seq<Usuario>, me: string, other: string): (r: seq<MessageView>)
    ensures forall i, j :: 0 <= i < j < |r| ==> r[i].createdAt <= r[j].createdAt
    ensures forall v :: v in r ==> exists m :: m in ms && Between(m, me, other) && v == Format(m, us, me)
    ensures forall m :: m in ms && Between(m, me, other) ==> Format(m, us, me) in r
    ensures |r| == |FilterBetween(ms, me, other)|
  {
    var selected := FilterBetween(ms, me, other);
    var ordered := ByOldest(selected);
    FormatAllMembers(ordered, us, me);
    assert forall m :: m in multiset(ordered) <==> m in selected;
    FormatAll(ordered, us, me)
  }

  datatype Response =
    | Err(status: nat, error: string)
    | Messages(mensajes: seq<MessageView>)
    | Sent(id: string, mensaje: string, createdAt: int)

  const NO_TOKEN := Err(401, "No autorizado")
  const BAD_TOKEN := Err(401, "Token inválido")
  const NOT_ALLOWED := Err(403, "No tienes permiso para chatear con este usuario")

  predicate Truthy(v: Option<string>) {
    v.Some? && v.value != ""
  }

  /** The 401 answers: no token, or a token that does not verify. */
  function Denial(c: Caller): (r: Response)
    requires !c.Verified?
    ensures r.Err? && r.status == 401
  {
    if c == NoToken then NO_TOKEN else BAD_TOKEN
  }

  /** GET with query parameter `otroUsuarioId`. */
  function GetSpec(ds: seq<Denuncia>, ms: seq<MensajeChat>, us: seq<Usuario>, header: Option<string>,
                   verify: string -> Option<Payload>, otroUsuarioId: Option<string>): (r: Response)
    ensures !StrippedCaller(header, verify).Verified? ==> r == Denial(StrippedCaller(header, verify))
    ensures r.Messages? <==> StrippedCaller(header, verify).Verified? && Truthy(otroUsuarioId)
                             && SharedCase(ds, StrippedCaller(header, verify).user.userId, otroUsuarioId.value).Some?
    ensures r.Messages? ==> r.mensajes == Conversation(ms, us, StrippedCaller(header, verify).user.userId, otroUsuarioId.value)
    ensures StrippedCaller(header, verify).Verified? && !Truthy(otroUsuarioId) ==> r == Err(400, "Falta otroUsuarioId")
  {
    match StrippedCaller(header, verify)
    case NoToken => NO_TOKEN
    case BadToken => BAD_TOKEN
    case Verified(user) =>
      var userId := user.userId;
      if !Truthy(otroUsuarioId) then Err(400, "Falta otroUsuarioId")
      else if SharedCase(ds, userId, otroUsuarioId.value).None? then NOT_ALLOWED
      else Messages(Conversation(ms, us, userId, otroUsuarioId.value))
  }

  datatype SendBody = SendBody(mensaje: Option<string>, destinatarioId: Option<string>)

  /** POST: the answer and the message table afterwards. */
  function PostSpec(ds: seq<Denuncia>, ms: seq<MensajeChat>, header: Option<string>, verify: string -> Option<Payload>,
                    b: SendBody, newId: string, now: int): (o: (Response, seq<MensajeChat>))
    ensures !StrippedCaller(header, verify).Verified? ==> o == (Denial(StrippedCaller(header, verify)), ms)
    ensures o.0.Sent? <==> StrippedCaller(header, verify).Verified? && Truthy(b.mensaje) && Truthy(b.destinatarioId)
                           && SharedCase(ds, StrippedCaller(header, verify).user.userId, b.destinatarioId.value).Some?
    ensures !o.0.Sent? ==> o.1 == ms
    ensures StrippedCaller(header, verify).Verified? && (!Truthy(b.mensaje) || !Truthy(b.destinatarioId)) ==>
      o.0 == Err(400, "Faltan datos requeridos")
    ensures o.0.Sent? ==> var me := StrippedCaller(header, verify).user.userId;
      o.1 == ms + [MensajeChat(newId, b.mensaje.value, me, b.destinatarioId.value,
                               SharedCase(ds, me, b.destinatarioId.value).value.id, now)]
  {
    match StrippedCaller(header, verify)
    case NoToken => (NO_TOKEN, ms)
    case BadToken => (BAD_TOKEN, ms)
    case Verified(user) =>
      var userId := user.userId;
      if !Truthy(b.mensaje) || !Truthy(b.destinatarioId) then (Err(400, "Faltan datos requeridos"), ms)
      else match SharedCase(ds, userId, b.destinatarioId.value)
        case None => (NOT_ALLOWED, ms)
        case Some(d) =>
          var m := MensajeChat(newId, b.mensaje.value, userId, b.destinatarioId.value, d.id, now);
          (Sent(m.id, m.mensaje, m.createdAt), ms + [m])
  }

  method Post(db: Db, header: Option<string>, verify: string -> Option<Payload>, b: SendBody, newId: string, now: int)
    returns (resp: Response)
    modifies db`mensajes
    ensures PostSpec(db.denuncias, old(db.mensajes), header, verify, b, newId, now) == (resp, db.mensajes)
  {
    var token := StrippedToken(header);
    if token.None? {
      return NO_TOKEN;
    }
    var user := verify(token.value);
    if user.None? {
      return BAD_TOKEN;
    }
    var userId := user.value.userId;
    if !Truthy(b.mensaje) || !Truthy(b.destinatarioId) {
      return Err(400, "Faltan datos requeridos");
    }
    var compartida := SharedCase(db.denuncias, userId, b.destinatarioId.value);
    if compartida.None? {
      return NOT_ALLOWED;
    }
    var nuevo := MensajeChat(newId, b.mensaje.value, userId, b.destinatarioId.value, compartida.value.id, now);
    db.mensajes := db.mensajes + [nuevo];
    return Sent(nuevo.id, nuevo.mensaje, nuevo.createdAt);
  }

  /**
   * A message one user may send, the other may read: when a's POST to b is
   * accepted, b's GET of the conversation with a is allowed and shows it, not
   * marked as b's own.
   */
  lemma SentMessageVisibleToRecipient(ds: seq<Denuncia>, ms: seq<MensajeChat>, us: seq<Usuario>,
                                      headerA: Option<string>, headerB: Option<string>, verify: string -> Option<Payload>,
                                      b: SendBody, newId: string, now: int)
    requires PostSpec(ds, ms, headerA, verify, b, newId, now).0.Sent?
    requires StrippedCaller(headerB, verify).Verified? && StrippedCaller(headerB, verify).user.userId == b.destinatarioId.value
    requires StrippedCaller(headerA, verify).user.userId != b.destinatarioId.value && StrippedCaller(headerA, verify).user.userId != ""
    ensures var a := StrippedCaller(headerA, verify).user.userId;
      var after := PostSpec(ds, ms, headerA, verify, b, newId, now).1;
      var r := GetSpec(ds, after, us, headerB, verify, Some(a));
      r.Messages? && exists v :: v in r.mensajes && v.id == newId && v.mensaje == b.mensaje.value && !v.esPropio
  {
    var a := StrippedCaller(headerA, verify).user.userId;
    var me := b.destinatarioId.value;
    var after := PostSpec(ds, ms, headerA, verify, b, newId, now).1;
    SharedCaseSymmetric(ds, a, me);
    var m := after[|ms|];
    assert m in after && Between(m, me, a);
    var r := GetSpec(ds, after, us, headerB, verify, Some(a));
    assert r == Messages(Conversation(after, us, me, a));
    assert Format(m, us, me) in r.mensajes;
  }
}
