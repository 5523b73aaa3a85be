/**
 * GET /api/chat/conversaciones: the people a caller may chat with. A
 * supervisor sees the complainants of the cases assigned to them under
 * numbered pseudonyms; a complainant sees the supervisors of their own cases.
 */
module ConversacionesRoute {
  import opened Wrappers
  import opened Text
  import opened Schema
  import opened Session

  datatype Conversacion = Conversacion(
    usuarioId: string, nombre: string, rol: string,
    ultimoMensaje: Option<string>, ultimaActividad: Option<string>, noLeidos: nat)

  datatype Response = Err(status: nat, error: string) | Conversaciones(list: seq<Conversacion>)

  /** Prisma's `distinct`: the first row for each value, in the order the rows come. */
  function Distinct(s: seq<Option<string>>): (r: seq<Option<string>>)
    ensures forall x :: x in r <==> x in s
    ensures forall i, j :: 0 <= i < j < |r| ==> r[i] != r[j]
  {
    if s == [] then []
    else
      var rest := Distinct(s[..|s| - 1]);
      assert forall x :: x in s <==> x in s[..|s| - 1] || x == s[|s| - 1] by {
        assert s == s[..|s| - 1] + [s[|s| - 1]];
      }
      if s[|s| - 1] in rest then rest else rest + [s[|s| - 1]]
  }

  /** `.filter((d) => d.<id>)`: the present, non-empty ids. */
  function Present(s: seq<Option<string>>): (r: seq<string>)
    ensures forall x :: x in r <==> Some(x) in s && x != ""
    ensures (forall i, j :: 0 <= i < j < |s| ==> s[i] != s[j]) ==> forall i, j :: 0 <= i < j < |r| ==> r[i] != r[j]
  {
    if s == [] then []
    else
      var rest := Present(s[1..]);
      assert forall x :: Some(x) in s <==> Some(x) == s[0] || Some(x) in s[1..];
      if s[0].Some? && s[0].value != "" then
        assert (forall i, j :: 0 <= i < j < |s| ==> s[i] != s[j]) ==> s[0] !in s[1..];
        [s[0].value] + rest
      else rest
  }

  function Complainants(ds: seq<Denuncia>, me: string): (r: seq<Option<string>>)
    ensures forall x :: x in r <==> exists d :: d in ds && d.supervisorId == Some(me) && d.denuncianteId == x
  {
    if ds == [] then []
    else
      (if ds[0].supervisorId == Some(me) then [ds[0].denuncianteId] else []) + Complainants(ds[1..], me)
  }

  function Supervisors(ds: seq<Denuncia>, me: string): (r: seq<Option<string>>)
    ensures forall x :: x in r <==> exists d :: d in ds && d.denuncianteId == Some(me) && d.supervisorId.Some? && d.supervisorId == x
  {
    if ds == [] then []
    else
      (if ds[0].denuncianteId == Some(me) && ds[0].supervisorId.Some? then [ds[0].supervisorId] else [])
        + Supervisors(ds[1..], me)
  }

  /** `#${String(n).padStart(3, "0")}`. */
  function Pseudonym(n: nat): (s: string)
    ensures |s| >= 4 && s[0] == '#' && AllDigits(s[1..])
  {
    var digits := PadStart(DecimalString(n), 3, '0');
    var s := "#" + digits;
    assert s[1..] == digits;
    s
  }

  lemma {:induction false} LeadingZerosValue(z: string, s: string)
    requires forall i :: 0 <= i < |z| ==> z[i] == '0'
    requires AllDigits(s)
    ensures AllDigits(z + s) && DecimalValue(z + s) == DecimalValue(s)
    decreases |s|, |z|
  {
    if s == [] {
      assert z + s == z;
      if z != [] {
        LeadingZerosValue(z[..|z| - 1], []);
        assert z[..|z| - 1] + [] == z[..|z| - 1];
      }
    } else {
      LeadingZerosValue(z, s[..|s| - 1]);
      assert (z + s)[..|z + s| - 1] == z + s[..|s| - 1];
    }
  }

  /** The digits of a pseudonym spell its number, so different numbers get different names. */
  lemma PseudonymValue(n: nat)
    ensures DecimalValue(Pseudonym(n)[1..]) == n
  {
    var d := DecimalString(n);
    var digits := PadStart(d, 3, '0');
    assert Pseudonym(n)[1..] == digits;
    var k := |digits| - |d|;
    assert digits == digits[..k] + d by {
      assert digits[k..] == d;
    }
    LeadingZerosValue(digits[..k], d);
    DecimalRoundTrip(n);
  }

  lemma PseudonymsDistinct(n: nat, m: nat)
    requires n != m
    ensures Pseudonym(n) != Pseudonym(m)
  {
    PseudonymValue(n);
    PseudonymValue(m);
  }

  /** An entry per id, in order; `name(k)` names the k-th. */
  function Entries(ids: seq<string>, name: nat -> string, rol: string): (r: seq<Conversacion>)
    ensures |r| == |ids|
    ensures forall k :: 0 <= k < |ids| ==> r[k] == Conversacion(ids[k], name(k), rol, None, None, 0)
  {
    seq(|ids|, k requires 0 <= k < |ids| => Conversacion(ids[k], name(k), rol, None, None, 0))
  }

  /** The distinct complainants of the cases assigned to supervisor `me`, in case order. */
  function SupervisorPartners(ds: seq<Denuncia>, me: string): (ids: seq<string>)
    ensures forall i, j :: 0 <= i < j < |ids| ==> ids[i] != ids[j]
    ensures forall x :: x in ids <==>
      x != "" && exists d :: d in ds && d.supervisorId == Some(me) && d.denuncianteId == Some(x)
  {
    var found := Complainants(ds, me);
    var unique := Distinct(found);
    var ids := Present(unique);
    assert forall x :: x in ids <==> Some(x) in found && x != "";
    ids
  }

  /** The distinct supervisors of the cases complainant `me` filed, in case order. */
  function DenunciantePartners(ds: seq<Denuncia>, me: string): (ids: seq<string>)
    ensures forall i, j :: 0 <= i < j < |ids| ==> ids[i] != ids[j]
    ensures forall x :: x in ids <==>
      x != "" && exists d :: d in ds && d.denuncianteId == Some(me) && d.supervisorId == Some(x)
  {
    var found := Supervisors(ds, me);
    var unique := Distinct(found);
    var ids := Present(unique);
    assert forall x :: x in ids <==> Some(x) in found && x != "";
    ids
  }

  /** A supervisor's list: one entry per distinct complainant of an assigned case, numbered #001, #002, ... */
  function SupervisorConversations(ds: seq<Denuncia>, me: string): (r: seq<Conversacion>)
    ensures |r| == |SupervisorPartners(ds, me)|
    ensures forall k :: 0 <= k < |r| ==>
      r[k].usuarioId == SupervisorPartners(ds, me)[k] && r[k].nombre == Pseudonym(k + 1) && r[k].rol == "DENUNCIANTE"
  {
    Entries(SupervisorPartners(ds, me), (k: nat) => Pseudonym(k + 1), "DENUNCIANTE")
  }

  /** A complainant's list: one entry per distinct supervisor of their own cases. */
  function DenuncianteConversations(ds: seq<Denuncia>, me: string): (r: seq<Conversacion>)
    ensures |r| == |DenunciantePartners(ds, me)|
    ensures forall k :: 0 <= k < |r| ==>
      r[k].usuarioId == DenunciantePartners(ds, me)[k] && r[k].nombre == "Supervisor Asignado" && r[k].rol == "SUPERVISOR"
  {
    Entries(DenunciantePartners(ds, me), (k: nat) => "Supervisor Asignado", "SUPERVISOR")
  }

  /** The conversation list of a verified caller, by role; any other role gets none. */
  function ConversationsOf(ds: seq<Denuncia>, user: Payload): (r: seq<Conversacion>)
    ensures user.rol == ADMIN ==> r == []
    ensures forall k :: 0 <= k < |r| ==> r[k].noLeidos == 0 && r[k].ultimoMensaje.None? && r[k].ultimaActividad.None?
    ensures user.rol == SUPERVISOR ==> r == SupervisorConversations(ds, user.userId)
    ensures user.rol == DENUNCIANTE ==> r == DenuncianteConversations(ds, user.userId)
  {
    if user.rol == SUPERVISOR then SupervisorConversations(ds, user.userId)
    else if user.rol == DENUNCIANTE then DenuncianteConversations(ds, user.userId)
    else []
  }

  function GetSpec(ds: seq<Denuncia>, header: Option<string>, verify: string -> Option<Payload>): (r: Response)
    ensures r.Err? <==> !StrippedCaller(header, verify).Verified?
    ensures r.Err? ==> r.status == 401
    ensures r.Conversaciones? ==> r.list == ConversationsOf(ds, StrippedCaller(header, verify).user)
  {
    match StrippedCaller(header, verify)
    case NoToken => Err(401, "No autorizado")
    case BadToken => Err(401, "Token inválido")
    case Verified(user) => Conversaciones(ConversationsOf(ds, user))
  }

  /** A supervisor's pseudonyms are pairwise different. */
  lemma SupervisorPseudonymsDistinct(ds: seq<Denuncia>, me: string, i: nat, j: nat)
    requires i < j < |SupervisorConversations(ds, me)|
    ensures SupervisorConversations(ds, me)[i].nombre != SupervisorConversations(ds, me)[j].nombre
  {
    PseudonymsDistinct(i + 1, j + 1);
  }

  /** Every complainant a supervisor is offered has a case assigned to that supervisor, and each appears once. */
  lemma SupervisorSeesOnlyAssigned(ds: seq<Denuncia>, me: string, i: nat)
    requires i < |SupervisorConversations(ds, me)|
    ensures exists d :: d in ds && d.supervisorId == Some(me) && d.denuncianteId == Some(SupervisorConversations(ds, me)[i].usuarioId)
    ensures forall j :: 0 <= j < |SupervisorConversations(ds, me)| && j != i ==>
      SupervisorConversations(ds, me)[j].usuarioId != SupervisorConversations(ds, me)[i].usuarioId
  {
    var ids := SupervisorPartners(ds, me);
    assert ids[i] in ids;
  }
}
