/**
 * Field encryption helpers. AES-256-GCM, the PBKDF2 key and base64 are not
 * modelled: a `Cipher` stands for them. `seal` turns a plaintext and an IV
 * into an authentication tag and ciphertext, both base64 text (None when the
 * library throws); `open` decodes the three text parts of an envelope and
 * turns them back into the plaintext (None when decoding or authentication
 * fails).
 */
module Encryption {
  import opened Wrappers
  import opened Text

  predicate IsBase64Char(c: char) {
    'A' <= c <= 'Z' || 'a' <= c <= 'z' || '0' <= c <= '9' || c == '+' || c == '/' || c == '='
  }

  /** Base64 text (section 4 of RFC 4648 alphabet, with padding). */
  type B64 = s: string | forall i :: 0 <= i < |s| ==> IsBase64Char(s[i])

  lemma B64HasNoColon(s: B64)
    ensures ':' !in s
  {
    forall i | 0 <= i < |s|
      ensures s[i] != ':'
    {
      assert IsBase64Char(s[i]);
    }
  }

  datatype Sealed = Sealed(authTag: B64, data: B64)

  datatype Cipher = Cipher(seal: (string, B64) -> Option<Sealed>, open: (string, string, string) -> Option<string>)

  /** Decrypting what was sealed gives back the plaintext (GCM's correctness under one key). */
  ghost predicate CipherInverts(c: Cipher) {
    forall text, iv: B64 :: c.seal(text, iv).Some? ==>
      c.open(iv, c.seal(text, iv).value.authTag, c.seal(text, iv).value.data) == Some(text)
  }

  /** JavaScript truthiness of `string | null | undefined`. */
  predicate Truthy(s: Option<string>) {
    s.Some? && s.value != ""
  }

  /** encrypt: null for a falsy input or a library error, otherwise `iv:authTag:data`. */
  function Encrypt(text: Option<string>, iv: B64, c: Cipher): (r: Option<string>)
    ensures !Truthy(text) ==> r.None?
    ensures r.Some? <==> Truthy(text) && c.seal(text.value, iv).Some?
    ensures r.Some? ==> var s := c.seal(text.value, iv).value;
      Split(r.value, ':') == [iv, s.authTag, s.data]
  {
    if !Truthy(text) then None
    else
      match c.seal(text.value, iv)
      case None => None
      case Some(sealed) =>
        var out := iv + ":" + sealed.authTag + ":" + sealed.data;
        EnvelopeParts(iv, sealed.authTag, sealed.data);
        Some(out)
  }

  /** The envelope splits back into its three parts. */
  lemma EnvelopeParts(iv: B64, tag: B64, data: B64)
    ensures Split(iv + ":" + tag + ":" + data, ':') == [iv, tag, data]
  {
    B64HasNoColon(iv);
    B64HasNoColon(tag);
    B64HasNoColon(data);
    var parts := [iv, tag, data];
    assert Join(parts, ':') == iv + ":" + tag + ":" + data by {
      assert Join(parts[2..], ':') == data;
      assert Join(parts[1..], ':') == tag + [':'] + data;
    }
    SplitJoin(parts, ':');
  }

  /**
   * decrypt: null for a falsy input and for anything that is not exactly three
   * ':'-separated parts; otherwise whatever the cipher makes of the three parts.
   */
  function Decrypt(encrypted: Option<string>, c: Cipher): (r: Option<string>)
    ensures !Truthy(encrypted) ==> r.None?
    ensures Truthy(encrypted) && |Split(encrypted.value, ':')| != 3 ==> r.None?
    ensures Truthy(encrypted) && |Split(encrypted.value, ':')| == 3 ==>
      var parts := Split(encrypted.value, ':');
      r == c.open(parts[0], parts[1], parts[2])
  {
    if !Truthy(encrypted) then None
    else
      var parts := Split(encrypted.value, ':');
      if |parts| != 3 then None
      else c.open(parts[0], parts[1], parts[2])
  }

  /** With a cipher that inverts itself, decrypting an encryption gives back the text. */
  lemma DecryptEncrypt(text: string, iv: B64, c: Cipher)
    requires CipherInverts(c)
    requires text != "" && c.seal(text, iv).Some?
    ensures Decrypt(Encrypt(Some(text), iv, c), c) == Some(text)
  {
    var sealed := c.seal(text, iv).value;
    var parts := Split(Encrypt(Some(text), iv, c).value, ':');
    assert parts == [iv, sealed.authTag, sealed.data];
  }

  /** Every envelope encrypt produces contains ':'. */
  lemma EncryptedHasColon(text: Option<string>, iv: B64, c: Cipher)
    requires Encrypt(text, iv, c).Some?
    ensures ':' in Encrypt(text, iv, c).value
  {
    var s := c.seal(text.value, iv).value;
    assert Encrypt(text, iv, c).value[|iv|] == ':';
  }

  // ---------------------------------------------------------------------------
  // maskText
  // ---------------------------------------------------------------------------

  /** One word: a word of at most one character is kept, a longer one keeps its first character. */
  function MaskWord(w: string): (r: string)
    ensures |r| == |w|
    ensures |w| > 0 ==> r[0] == w[0]
    ensures forall i :: 0 < i < |w| ==> r[i] == '*'
  {
    if |w| <= 1 then w else [w[0]] + seq(|w| - 1, _ => '*')
  }

  function MaskWords(words: seq<string>): (r: seq<string>)
    ensures |r| == |words|
    ensures forall k :: 0 <= k < |words| ==> r[k] == MaskWord(words[k])
  {
    if words == [] then [] else [MaskWord(words[0])] + MaskWords(words[1..])
  }

  /** What the mask shows at position i: spaces and the first letter of each word. */
  function MaskedAt(s: string, i: nat): char
    requires i < |s|
  {
    if s[i] == ' ' || i == 0 || s[i - 1] == ' ' then s[i] else '*'
  }

  /**
   * maskText: '***' for a falsy input; otherwise each space-separated word
   * keeps its first character and the rest of it becomes '*'.
   */
  function MaskText(text: Option<string>): (r: string)
    ensures !Truthy(text) ==> r == "***"
    ensures Truthy(text) ==> |r| == |text.value|
    ensures Truthy(text) ==> forall i :: 0 <= i < |r| ==> r[i] == MaskedAt(text.value, i)
  {
    if !Truthy(text) then "***"
    else
      MaskSplitJoin(text.value);
      Join(MaskWords(Split(text.value, ' ')), ' ')
  }

  lemma {:induction false} MaskSplitJoin(s: string)
    ensures var r := Join(MaskWords(Split(s, ' ')), ' ');
      |r| == |s| && forall i :: 0 <= i < |s| ==> r[i] == MaskedAt(s, i)
    decreases |s|
  {
    if ' ' !in s {
      assert Split(s, ' ') == [s];
      assert MaskWords([s]) == [MaskWord(s)];
    } else {
      var k := IndexOf(s, ' ');
      var rest := s[k + 1..];
      var restParts := Split(rest, ' ');
      assert Split(s, ' ') == [s[..k]] + restParts;
      assert MaskWords([s[..k]] + restParts) == [MaskWord(s[..k])] + MaskWords(restParts);
      var tail := Join(MaskWords(restParts), ' ');
      MaskSplitJoin(rest);
      var parts := [MaskWord(s[..k])] + MaskWords(restParts);
      assert parts[1..] == MaskWords(restParts);
      var r := MaskWord(s[..k]) + [' '] + tail;
      assert Join(parts, ' ') == r;
      forall i | 0 <= i < |s| ensures r[i] == MaskedAt(s, i) {
        if i < k {
          MaskFirstWordAt(s, k, i);
          assert r[i] == MaskWord(s[..k])[i];
        } else if i > k {
          assert r[i] == tail[i - k - 1];
          MaskRestAt(s, k, tail, i);
        }
      }
    }
  }

  /** Inside the first word the mask of the word and the mask of the text agree. */
  lemma MaskFirstWordAt(s: string, k: nat, i: nat)
    requires k <= |s| && ' ' !in s[..k] && i < k
    ensures MaskWord(s[..k])[i] == MaskedAt(s, i)
  {
    assert s[i] == s[..k][i];
    if i > 0 {
      assert s[i - 1] == s[..k][i - 1];
    }
  }

  /** After the first space the text's mask is the mask of the rest. */
  lemma MaskRestAt(s: string, k: nat, tail: string, i: nat)
    requires k < |s| && s[k] == ' ' && k < i < |s|
    requires |tail| == |s| - k - 1
    requires forall j :: 0 <= j < |tail| ==> tail[j] == MaskedAt(s[k + 1..], j)
    ensures tail[i - k - 1] == MaskedAt(s, i)
  {
    var rest := s[k + 1..];
    assert rest[i - k - 1] == s[i];
    if i - k - 1 > 0 {
      assert rest[i - k - 2] == s[i - 1];
    }
  }

  // ---------------------------------------------------------------------------
  // encryptFields / decryptFields
  // ---------------------------------------------------------------------------

  /** A property value of the record: a string, null, or anything else (left opaque). */
  datatype FieldVal = Str(s: string) | Null | Other

  function OrNullVal(r: Option<string>): FieldVal {
    if r.Some? then Str(r.value) else Null
  }

  /** The copy after the first n listed fields were visited: string values go through `t(k, value)`. */
  function Transformed(data: map<string, FieldVal>, fields: seq<string>, t: (nat, string) -> Option<string>, n: nat): (r: map<string, FieldVal>)
    requires n <= |fields|
    ensures r.Keys == data.Keys
  {
    if n == 0 then data
    else Visit(Transformed(data, fields, t, n - 1), fields[n - 1], t, n - 1)
  }

  /** Fields that are not listed, or do not hold a string, are copied unchanged. */
  lemma {:induction false} TransformedKeepsOthers(data: map<string, FieldVal>, fields: seq<string>,
                                                  t: (nat, string) -> Option<string>, n: nat, f: string)
    requires n <= |fields| && f in data
    requires f !in fields[..n] || !data[f].Str?
    ensures Transformed(data, fields, t, n)[f] == data[f]
  {
    if n > 0 {
      assert fields[..n] == fields[..n - 1] + [fields[n - 1]];
      TransformedKeepsOthers(data, fields, t, n - 1, f);
    }
  }

  /** Visiting the k-th listed field f: a string value is replaced by its transform. */
  function Visit(d: map<string, FieldVal>, f: string, t: (nat, string) -> Option<string>, k: nat): (r: map<string, FieldVal>)
    ensures r.Keys == d.Keys
    ensures f in d && d[f].Str? ==> r[f] == OrNullVal(t(k, d[f].s))
    ensures forall g :: g in d && (g != f || !d[g].Str?) ==> r[g] == d[g]
  {
    if f in d && d[f].Str? then d[f := OrNullVal(t(k, d[f].s))] else d
  }

  /** A field listed once, holding a string, ends up as the transform of that string. */
  lemma {:induction false} TransformedListedOnce(data: map<string, FieldVal>, fields: seq<string>,
                                                 t: (nat, string) -> Option<string>, n: nat, k: nat)
    requires k < n <= |fields|
    requires fields[k] in data && data[fields[k]].Str?
    requires forall j :: 0 <= j < n && j != k ==> fields[j] != fields[k]
    ensures Transformed(data, fields, t, n)[fields[k]] == OrNullVal(t(k, data[fields[k]].s))
  {
    var f := fields[k];
    if n - 1 == k {
      assert f !in fields[..k];
      TransformedKeepsOthers(data, fields, t, k, f);
    } else {
      TransformedListedOnce(data, fields, t, n - 1, k);
    }
  }

  /** The shared loop of encryptFields and decryptFields: copy, then overwrite listed string fields. */
  method TransformFields(data: map<string, FieldVal>, fields: seq<string>, t: (nat, string) -> Option<string>)
    returns (r: map<string, FieldVal>)
    ensures r == Transformed(data, fields, t, |fields|)
  {
    r := data;
    var k := 0;
    while k < |fields|
      invariant 0 <= k <= |fields|
      invariant r == Transformed(data, fields, t, k)
    {
      var f := fields[k];
      if f in r && r[f].Str? {
        r := r[f := OrNullVal(t(k, r[f].s))];
      }
      k := k + 1;
    }
  }

  /** encryptFields; `ivs(k)` is the IV drawn when the k-th listed field is encrypted. */
  method EncryptFields(data: map<string, FieldVal>, fields: seq<string>, ivs: nat -> B64, c: Cipher)
    returns (r: map<string, FieldVal>)
    ensures r == Transformed(data, fields, (k: nat, s: string) => Encrypt(Some(s), ivs(k), c), |fields|)
  {
    r := TransformFields(data, fields, (k: nat, s: string) => Encrypt(Some(s), ivs(k), c));
  }

  /** decryptFields. */
  method DecryptFields(data: map<string, FieldVal>, fields: seq<string>, c: Cipher)
    returns (r: map<string, FieldVal>)
    ensures r == Transformed(data, fields, (k: nat, s: string) => Decrypt(Some(s), c), |fields|)
  {
    r := TransformFields(data, fields, (k: nat, s: string) => Decrypt(Some(s), c));
  }

  /**
   * With an inverting cipher, decrypting the encrypted copy restores every
   * field listed once whose value was a non-empty string that the cipher sealed.
   */
  lemma DecryptFieldsEncryptFields(data: map<string, FieldVal>, fields: seq<string>, ivs: nat -> B64, c: Cipher, k: nat)
    requires CipherInverts(c)
    requires k < |fields| && fields[k] in data && data[fields[k]].Str?
    requires forall j :: 0 <= j < |fields| && j != k ==> fields[j] != fields[k]
    requires data[fields[k]].s != "" && c.seal(data[fields[k]].s, ivs(k)).Some?
    ensures var enc := Transformed(data, fields, (j: nat, s: string) => Encrypt(Some(s), ivs(j), c), |fields|);
      Transformed(enc, fields, (j: nat, s: string) => Decrypt(Some(s), c), |fields|)[fields[k]] == data[fields[k]]
  {
    var e := (j: nat, s: string) => Encrypt(Some(s), ivs(j), c);
    var d := (j: nat, s: string) => Decrypt(Some(s), c);
    var f := fields[k];
    var text := data[f].s;
    TransformedListedOnce(data, fields, e, |fields|, k);
    var enc := Transformed(data, fields, e, |fields|);
    assert enc[f] == Str(Encrypt(Some(text), ivs(k), c).value);
    TransformedListedOnce(enc, fields, d, |fields|, k);
    DecryptEncrypt(text, ivs(k), c);
  }
}
