/**
 * Reading the caller's session from the `authorization` header. Token
 * verification (JWT, RFC 7519) is a parameter: `verify` returns the payload
 * of a token it accepts and None for any other token.
 */
module Session {
  import opened Wrappers
  import opened Text
  import opened Schema

  const BEARER := "Bearer "

  /** The `getUserFromToken` helpers: the header must start with "Bearer "; the token is the rest. */
  function BearerToken(header: Option<string>): (t: Option<string>)
    ensures t.Some? <==> header.Some? && BEARER <= header.value
    ensures t.Some? ==> header.value == BEARER + t.value
  {
    if header.Some? && BEARER <= header.value then Some(header.value[|BEARER|..]) else None
  }

  /** The caller of a route that uses `getUserFromToken`: None unless a bearer token verifies. */
  function GetUserFromToken(header: Option<string>, verify: string -> Option<Payload>): (p: Option<Payload>)
    ensures p.Some? ==> header.Some? && BEARER <= header.value && verify(header.value[|BEARER|..]) == p
    ensures header.Some? && BEARER <= header.value ==> p == verify(header.value[|BEARER|..])
  {
    match BearerToken(header)
    case None => None
    case Some(t) => verify(t)
  }

  /**
   * `headers.get("authorization")?.replace("Bearer ", "")`, kept only when truthy:
   * the first "Bearer " is removed wherever it occurs.
   */
  function StrippedToken(header: Option<string>): (t: Option<string>)
    ensures header.None? ==> t.None?
    ensures t.Some? ==> t.value != ""
    ensures header.Some? && BEARER <= header.value && header.value != BEARER ==> t == Some(header.value[|BEARER|..])
  {
    if header.None? then None
    else
      var r := ReplaceFirst(header.value, BEARER, "");
      assert BEARER <= header.value ==> r == header.value[|BEARER|..] by {
        if BEARER <= header.value {
          assert "" + header.value[|BEARER|..] == header.value[|BEARER|..];
        }
      }
      if r == "" then None else Some(r)
  }

  /** The caller of a route that reads the header with `replace("Bearer ", "")` and verifies the rest. */
  datatype Caller = NoToken | BadToken | Verified(user: Payload)

  function StrippedCaller(header: Option<string>, verify: string -> Option<Payload>): (c: Caller)
    ensures c == NoToken <==> StrippedToken(header).None?
    ensures c.Verified? <==> StrippedToken(header).Some? && verify(StrippedToken(header).value).Some?
    ensures c.Verified? ==> c.user == verify(StrippedToken(header).value).value
  {
    match StrippedToken(header)
    case None => NoToken
    case Some(token) =>
      match verify(token)
      case None => BadToken
      case Some(user) => Verified(user)
  }

  /** A header with no "Bearer " in it is taken whole as the token. */
  lemma StrippedTokenTakesBareHeader(header: string)
    requires header != ""
    requires forall i :: 0 <= i <= |header| ==> !(BEARER <= header[i..])
    ensures StrippedToken(Some(header)) == Some(header)
  {
    ReplaceFirstAbsent(header, BEARER, "");
  }
}
