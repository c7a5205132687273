/** The envelope around authenticated encryption (core/aead/aead.go). The cipher is a parameter:
    a pair of functions of which only "open undoes seal" is assumed. */
module AEAD {
  import opened Wrappers
  import opened CAS

  const VERSION: bv8 := 0x01
  const KEY_SIZE := 32
  const NONCE_LEN := 24

  type Nonce = b: Bytes | |b| == NONCE_LEN witness seq(NONCE_LEN, _ => 0)

  datatype Cipher = Cipher(seal: (Bytes, Bytes, Bytes, Bytes) -> Bytes,
                           open: (Bytes, Bytes, Bytes, Bytes) -> Option<Bytes>)

  ghost predicate Inverts(cipher: Cipher) {
    forall key, nonce, plain, aad :: cipher.open(key, nonce, cipher.seal(key, nonce, plain, aad), aad) == Some(plain)
  }

  datatype AeadError = BadKeySize | NoRandomness | TooShort | UnsupportedVersion | AuthenticationFailed

  /** [version:1][nonce:24][ciphertext]. */
  function Envelope(cipher: Cipher, key: Bytes, plain: Bytes, aad: Bytes, nonce: Nonce): Bytes {
    [VERSION] + nonce + cipher.seal(key, nonce, plain, aad)
  }

  /** Fills the header in place and appends the ciphertext. */
  method Seal(cipher: Cipher, key: Bytes, plain: Bytes, aad: Bytes, random: Option<Nonce>)
    returns (r: Result<Bytes, AeadError>)
    ensures r == Sealed(cipher, key, plain, aad, random)
  {
    if |key| != KEY_SIZE {
      return Err(BadKeySize);
    }
    if random.None? {
      return Err(NoRandomness);
    }
    var nonce := random.value;
    var out := new bv8[1 + NONCE_LEN](_ => 0);
    out[0] := VERSION;
    for i := 0 to NONCE_LEN
      invariant out[0] == VERSION
      invariant out[1..1 + i] == nonce[..i]
    {
      out[1 + i] := nonce[i];
    }
    assert out[..] == [VERSION] + nonce;
    return Ok(out[..] + cipher.seal(key, nonce, plain, aad));
  }

  function Sealed(cipher: Cipher, key: Bytes, plain: Bytes, aad: Bytes, random: Option<Nonce>)
    : Result<Bytes, AeadError>
  {
    if |key| != KEY_SIZE then Err(BadKeySize)
    else if random.None? then Err(NoRandomness)
    else Ok(Envelope(cipher, key, plain, aad, random.value))
  }

  function Open(cipher: Cipher, key: Bytes, envelope: Bytes, aad: Bytes): Result<Bytes, AeadError> {
    if |key| != KEY_SIZE then Err(BadKeySize)
    else if |envelope| < 1 + NONCE_LEN then Err(TooShort)
    else if envelope[0] != VERSION then Err(UnsupportedVersion)
    else
      match cipher.open(key, envelope[1..1 + NONCE_LEN], envelope[1 + NONCE_LEN..], aad)
      case None => Err(AuthenticationFailed)
      case Some(plain) => Ok(plain)
  }

  /** Open gives back what Seal was given, for every key that Seal accepts. */
  lemma OpenUndoesSeal(cipher: Cipher, key: Bytes, plain: Bytes, aad: Bytes, random: Option<Nonce>)
    requires Inverts(cipher)
    ensures Sealed(cipher, key, plain, aad, random).Ok? <==> |key| == KEY_SIZE && random.Some?
    ensures Sealed(cipher, key, plain, aad, random).Ok? ==>
              var env := Sealed(cipher, key, plain, aad, random).value;
              |env| >= 1 + NONCE_LEN && Open(cipher, key, env, aad) == Ok(plain)
  {
    if |key| == KEY_SIZE && random.Some? {
      var env := Envelope(cipher, key, plain, aad, random.value);
      assert env[1..1 + NONCE_LEN] == random.value;
      assert env[1 + NONCE_LEN..] == cipher.seal(key, random.value, plain, aad);
    }
  }

  /** The layout: version 1, 24 bytes of nonce, ciphertext. */
  lemma SealAnswers(cipher: Cipher, key: Bytes, plain: Bytes, aad: Bytes, random: Option<Nonce>)
    ensures var r := Sealed(cipher, key, plain, aad, random);
            && (r == Err(BadKeySize) <==> |key| != 32)
            && (r == Err(NoRandomness) <==> |key| == 32 && random.None?)
            && (r.Ok? <==> |key| == 32 && random.Some?)
            && (r.Ok? ==>
                  && |r.value| == 25 + |cipher.seal(key, random.value, plain, aad)| && r.value[0] == 0x01
                  && r.value[1..25] == random.value && r.value[25..] == cipher.seal(key, random.value, plain, aad))
  {}

  /** Which envelope opens, and why another does not, in the order of the checks. */
  lemma OpenAnswers(cipher: Cipher, key: Bytes, envelope: Bytes, aad: Bytes)
    ensures var r := Open(cipher, key, envelope, aad);
            && (r == Err(BadKeySize) <==> |key| != 32)
            && (r == Err(TooShort) <==> |key| == 32 && |envelope| < 25)
            && (r == Err(UnsupportedVersion) <==> |key| == 32 && |envelope| >= 25 && envelope[0] != 0x01)
            && (|key| == 32 && |envelope| >= 25 && envelope[0] == 0x01 ==>
                  var plain := cipher.open(key, envelope[1..25], envelope[25..], aad);
                  && (plain.Some? <==> r.Ok?) && (r.Ok? ==> plain == Some(r.value))
                  && (r.Err? ==> r.error == AuthenticationFailed))
  {}

  // ---- associated data ---------------------------------------------------------------------

  type Kind = bv32

  /** Four bytes, most significant first. */
  function BigEndian(kind: Kind): (b: Bytes)
    ensures |b| == 4
  {
    [((kind >> 24) & 0xff) as bv8, ((kind >> 16) & 0xff) as bv8, ((kind >> 8) & 0xff) as bv8, (kind & 0xff) as bv8]
  }

  /** fingerprint | kind */
  function AAD(fingerprint: Bytes, kind: Kind): Bytes {
    fingerprint + ['|' as bv8] + BigEndian(kind)
  }

  /** The layout: the fingerprint, a vertical bar, the kind in four bytes, most significant first. */
  lemma AADAnswers(f: Bytes, k: Kind)
    ensures AAD(f, 1) == f + [0x7c, 0, 0, 0, 1] && AAD(f, 2) == f + [0x7c, 0, 0, 0, 2]
    ensures var b := BigEndian(k);
            ((b[0] as bv32) << 24) | ((b[1] as bv32) << 16) | ((b[2] as bv32) << 8) | (b[3] as bv32) == k
    ensures AAD(f, k) == f + [0x7c] + BigEndian(k)
  {
    assert '|' as bv8 == 0x7c;
    assert AAD(f, 1) == f + ([0x7c] + [0, 0, 0, 1]);
    assert AAD(f, 2) == f + ([0x7c] + [0, 0, 0, 2]);
  }

  /** Different vaults or purposes never share associated data: even a fingerprint that contains the
      separator cannot be confused with another, because the kind has a fixed width. */
  lemma AADSeparates(f: Bytes, k: Kind, g: Bytes, l: Kind)
    ensures AAD(f, k) == AAD(g, l) <==> f == g && k == l
  {
    if AAD(f, k) == AAD(g, l) {
      hide BigEndian;
      var a, b := AAD(f, k), AAD(g, l);
      assert |f| == |g|;
      assert f == a[..|f|] == b[..|g|] == g;
      assert BigEndian(k) == a[|f| + 1..] == b[|g| + 1..] == BigEndian(l);
      BigEndianInjective(k, l);
    }
  }

  lemma BigEndianInjective(k: Kind, l: Kind)
    requires BigEndian(k) == BigEndian(l)
    ensures k == l
  {
    assert BigEndian(k)[0] == BigEndian(l)[0] && BigEndian(k)[1] == BigEndian(l)[1];
    assert BigEndian(k)[2] == BigEndian(l)[2] && BigEndian(k)[3] == BigEndian(l)[3];
  }
}
