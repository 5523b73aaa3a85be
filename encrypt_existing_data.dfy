/**
 * The one-off migration that encrypts the personal fields (nombre, apellido,
 * telefono) of every user already in the database. The IV drawn for field f
 * (0 nombre, 1 apellido, 2 telefono) of the k-th user is `ivs(3 * k + f)`;
 * `fails` holds the ids whose database update throws.
 */
module EncryptExistingData {
  import opened Wrappers
  import opened Schema
  import opened Encryption

  /** A field is encrypted when it is truthy and does not already look like an envelope. */
  predicate NeedsEncryption(v: Option<string>) {
    Truthy(v) && ':' !in v.value
  }

  predicate HasWork(u: Usuario) {
    NeedsEncryption(u.nombre) || NeedsEncryption(u.apellido) || NeedsEncryption(u.telefono)
  }

  function EncryptIfNeeded(v: Option<string>, iv: B64, c: Cipher): (r: Option<string>)
    ensures !NeedsEncryption(v) ==> r == v
    ensures NeedsEncryption(v) ==> r == Encrypt(v, iv, c)
  {
    if NeedsEncryption(v) then Encrypt(v, iv, c) else v
  }

  /** The row of the k-th user after its update went through. */
  function Migrated(u: Usuario, k: nat, ivs: nat -> B64, c: Cipher): (r: Usuario)
    ensures r.(nombre := u.nombre, apellido := u.apellido, telefono := u.telefono) == u
    ensures !HasWork(r)
  {
    EncryptIfNeededSettles(u.nombre, ivs(3 * k), c);
    EncryptIfNeededSettles(u.apellido, ivs(3 * k + 1), c);
    EncryptIfNeededSettles(u.telefono, ivs(3 * k + 2), c);
    u.(nombre := EncryptIfNeeded(u.nombre, ivs(3 * k), c),
       apellido := EncryptIfNeeded(u.apellido, ivs(3 * k + 1), c),
       telefono := EncryptIfNeeded(u.telefono, ivs(3 * k + 2), c))
  }

  /** After one pass a field never needs encrypting again: it is null, empty or an envelope. */
  lemma EncryptIfNeededSettles(v: Option<string>, iv: B64, c: Cipher)
    ensures !NeedsEncryption(EncryptIfNeeded(v, iv, c))
  {
    if NeedsEncryption(v) && Encrypt(v, iv, c).Some? {
      EncryptedHasColon(v, iv, c);
    }
  }

  /** The k-th row at the end of the run: updated when it had work and its update succeeded. */
  function After(us: seq<Usuario>, k: nat, ivs: nat -> B64, c: Cipher, fails: set<string>): Usuario
    requires k < |us|
  {
    if HasWork(us[k]) && us[k].id !in fails then Migrated(us[k], k, ivs, c) else us[k]
  }

  function MigratedTable(us: seq<Usuario>, ivs: nat -> B64, c: Cipher, fails: set<string>): (r: seq<Usuario>)
    ensures |r| == |us|
    ensures forall k :: 0 <= k < |us| ==> r[k] == After(us, k, ivs, c, fails)
  {
    seq(|us|, k requires 0 <= k < |us| => After(us, k, ivs, c, fails))
  }

  /** Users among the first n that had work and whose update succeeded (`processed`). */
  function Processed(us: seq<Usuario>, n: nat, fails: set<string>): nat
    requires n <= |us|
  {
    if n == 0 then 0
    else Processed(us, n - 1, fails) + (if HasWork(us[n - 1]) && us[n - 1].id !in fails then 1 else 0)
  }

  /** Users among the first n that had work and whose update threw (`errors`). */
  function Errors(us: seq<Usuario>, n: nat, fails: set<string>): nat
    requires n <= |us|
  {
    if n == 0 then 0
    else Errors(us, n - 1, fails) + (if HasWork(us[n - 1]) && us[n - 1].id in fails then 1 else 0)
  }

  /** Users among the first n that had work at all. */
  function WithWork(us: seq<Usuario>, n: nat): nat
    requires n <= |us|
  {
    if n == 0 then 0 else WithWork(us, n - 1) + (if HasWork(us[n - 1]) then 1 else 0)
  }

  /** The loop over the users: update each that has work, count successes and failures. */
  method EncryptExisting(db: Db, ivs: nat -> B64, c: Cipher, fails: set<string>)
    returns (processed: nat, errors: nat)
    requires db.Valid()
    modifies db`usuarios
    ensures db.Valid()
    ensures db.usuarios == MigratedTable(old(db.usuarios), ivs, c, fails)
    ensures processed == Processed(old(db.usuarios), |old(db.usuarios)|, fails)
    ensures errors == Errors(old(db.usuarios), |old(db.usuarios)|, fails)
  {
    var usuarios := db.usuarios;
    processed, errors := 0, 0;
    var k := 0;
    while k < |usuarios|
      invariant 0 <= k <= |usuarios|
      invariant db.Valid() && |db.usuarios| == |usuarios|
      invariant forall j :: 0 <= j < k ==> db.usuarios[j] == After(usuarios, j, ivs, c, fails)
      invariant forall j :: k <= j < |usuarios| ==> db.usuarios[j] == usuarios[j]
      invariant processed == Processed(usuarios, k, fails)
      invariant errors == Errors(usuarios, k, fails)
    {
      var usuario := usuarios[k];
      if HasWork(usuario) {
        if usuario.id in fails {
          errors := errors + 1;
        } else {
          IndexOfOwnId(db.usuarios, k);
          var i := IndexOfId(db.usuarios, usuario.id).value;
          var updated := Migrated(db.usuarios[i], k, ivs, c);
          UpdateKeepsUnique(db.usuarios, i, updated);
          db.usuarios := db.usuarios[i := updated];
          processed := processed + 1;
        }
      }
      k := k + 1;
    }
    assert db.usuarios == MigratedTable(usuarios, ivs, c, fails);
  }

  /** Every user is either counted once or skipped: processed + errors never exceeds the users read. */
  lemma {:induction false} CountsPartitionWork(us: seq<Usuario>, n: nat, fails: set<string>)
    requires n <= |us|
    ensures Processed(us, n, fails) + Errors(us, n, fails) == WithWork(us, n) <= n
  {
    if n > 0 {
      CountsPartitionWork(us, n - 1, fails);
    }
  }

  lemma {:induction false} NoWorkCountsZero(us: seq<Usuario>, n: nat, fails: set<string>)
    requires n <= |us|
    requires forall k :: 0 <= k < |us| ==> !HasWork(us[k])
    ensures Processed(us, n, fails) == 0 && Errors(us, n, fails) == 0
  {
    if n > 0 {
      NoWorkCountsZero(us, n - 1, fails);
    }
  }

  /**
   * Running the script a second time after a run without failures changes
   * nothing and reports nothing processed: each migrated field is an
   * envelope (it contains ':') or null.
   */
  lemma RerunIsNoop(us: seq<Usuario>, ivs: nat -> B64, c: Cipher, ivs2: nat -> B64, c2: Cipher, fails2: set<string>)
    ensures var once := MigratedTable(us, ivs, c, {});
      MigratedTable(once, ivs2, c2, fails2) == once
      && Processed(once, |once|, fails2) == 0
      && Errors(once, |once|, fails2) == 0
  {
    var once := MigratedTable(us, ivs, c, {});
    forall k | 0 <= k < |once|
      ensures !HasWork(once[k])
    {
      assert once[k] == After(us, k, ivs, c, {});
    }
    NoWorkCountsZero(once, |once|, fails2);
    assert MigratedTable(once, ivs2, c2, fails2) == once;
  }
}
