/**
 * /api/chat: a development chat room kept in process memory. POST appends a
 * message, filling in an anonymous sender for missing fields; GET returns the
 * last `limit` messages (50 when the query leaves it out).
 */
module ChatRoute {
  import opened Wrappers
  import opened Text

  datatype Sender = Sender(id: string, nombre: string, apellido: string, rol: string)

  datatype Message = Message(id: string, mensaje: string, usuario: Sender, createdAt: string)

  /** The request body; every field may be missing. */
  datatype SenderBody = SenderBody(id: Option<string>, nombre: Option<string>, apellido: Option<string>, rol: Option<string>)
  datatype ChatBody = ChatBody(mensaje: Option<string>, usuario: Option<SenderBody>)

  const DEFAULT_LIMIT := 50

  /** JavaScript's `value || fallback` on an optional string: the empty string is falsy. */
  function OrElse(o: Option<string>, fallback: string): (r: string)
    ensures o.Some? && o.value != "" ==> r == o.value
    ensures o.None? || o.value == "" ==> r == fallback
  {
    if o.Some? && o.value != "" then o.value else fallback
  }

  /** The sender as posted, with anonymous defaults for missing or empty fields. */
  function SenderOf(b: Option<SenderBody>): (s: Sender)
    ensures s.id != "" && s.nombre != "" && s.rol != ""
    ensures b.None? ==> s == Sender("anon", "Anonimo", "", "DENUNCIANTE")
    ensures b.Some? && b.value.id.Some? && b.value.id.value != "" ==> s.id == b.value.id.value
    ensures b.Some? && b.value.rol.Some? && b.value.rol.value != "" ==> s.rol == b.value.rol.value
  {
    match b
    case None => Sender("anon", "Anonimo", "", "DENUNCIANTE")
    case Some(u) =>
      Sender(OrElse(u.id, "anon"), OrElse(u.nombre, "Anonimo"), OrElse(u.apellido, ""), OrElse(u.rol, "DENUNCIANTE"))
  }

  /** The message a POST creates at clock reading `now` (milliseconds) stamped `stamp`. */
  function NewMessage(b: ChatBody, now: nat, stamp: string): (m: Message)
    ensures AllDigits(m.id) && DecimalValue(m.id) == now
    ensures m.mensaje == OrElse(b.mensaje, "") && m.usuario == SenderOf(b.usuario)
    ensures m.createdAt == stamp
  {
    DecimalRoundTrip(now);
    Message(DecimalString(now), OrElse(b.mensaje, ""), SenderOf(b.usuario), stamp)
  }

  /**
   * `messages.slice(-limit)`: a positive limit keeps at most that many of the
   * newest, zero keeps everything, and a negative one drops that many of the oldest.
   */
  function Recent(ms: seq<Message>, limit: int): (r: seq<Message>)
    ensures |r| <= |ms| && r == ms[|ms| - |r|..]
    ensures limit > 0 ==> |r| == if limit < |ms| then limit else |ms|
    ensures limit == 0 || limit >= |ms| ==> r == ms
    ensures limit < 0 ==> |r| == if -limit < |ms| then |ms| + limit else 0
  {
    var start :=
      if limit > 0 then (if limit >= |ms| then 0 else |ms| - limit)
      else if -limit < |ms| then -limit
      else |ms|;
    ms[start..]
  }

  /** The limit a query asks for: absent or empty means the default. */
  function LimitOf(param: Option<int>): (n: int)
    ensures param.None? ==> n == DEFAULT_LIMIT
    ensures param.Some? ==> n == param.value
  {
    if param.Some? then param.value else DEFAULT_LIMIT
  }

  /** The room: `messages` is the module-level array the handlers share. */
  class ChatRoom {
    var messages: seq<Message>

    constructor()
      ensures messages == []
    {
      messages := [];
    }

    /** POST /api/chat: append the new message and return it. */
    method Post(b: ChatBody, now: nat, stamp: string) returns (m: Message)
      modifies this
      ensures m == NewMessage(b, now, stamp)
      ensures messages == old(messages) + [m]
    {
      m := NewMessage(b, now, stamp);
      messages := messages + [m];
    }

    /** GET /api/chat: the newest messages; the room is left as it is. */
    method Get(param: Option<int>) returns (data: seq<Message>)
      ensures data == Recent(messages, LimitOf(param))
      ensures param.None? ==> |data| <= DEFAULT_LIMIT && data == messages[|messages| - |data|..]
    {
      data := Recent(messages, LimitOf(param));
    }
  }

  /** A message just posted is what a GET with limit 1 returns, and any positive limit ends with it. */
  lemma PostedIsNewest(ms: seq<Message>, m: Message, limit: int)
    requires limit > 0
    ensures Recent(ms + [m], limit)[|Recent(ms + [m], limit)| - 1] == m
    ensures Recent(ms + [m], 1) == [m]
  {
    var r := Recent(ms + [m], limit);
    assert r == (ms + [m])[|ms + [m]| - |r|..];
    assert r[|r| - 1] == (ms + [m])[|ms|];
  }

  /** Raising a positive limit only adds older messages in front. */
  lemma RecentGrows(ms: seq<Message>, small: int, large: int)
    requires 0 < small <= large
    ensures |Recent(ms, small)| <= |Recent(ms, large)|
    ensures Recent(ms, small) == Recent(ms, large)[|Recent(ms, large)| - |Recent(ms, small)|..]
  {
  }
}
