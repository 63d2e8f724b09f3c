/** Field encryption with a searchable blind index. AES-GCM and HMAC are parameters. */
module PiiCrypto {
  import opened Values

  const PREFIX := "pii1:"

  /**
   * `cipher` is the base64 body of one AES-GCM encryption under a given nonce,
   * `decipher` its inverse (None when decoding or authentication fails), `hmac`
   * the keyed blind-index hash. `enabled` says whether a usable master key is set.
   */
  datatype Crypto = Crypto(
    enabled: bool,
    cipher: (string, string) -> string,
    decipher: string -> Option<string>,
    hmac: string -> string)

  ghost predicate Lawful(c: Crypto) {
    && (forall n, s :: c.decipher(c.cipher(n, s)) == Some(s))
    && (forall a, b :: c.hmac(a) == c.hmac(b) ==> a == b)
  }

  predicate Marked(s: string) {
    PREFIX <= s
  }

  function Encrypt(c: Crypto, nonce: string, plain: string): string {
    if !c.enabled || Marked(plain) then plain else PREFIX + c.cipher(nonce, plain)
  }

  function Decrypt(c: Crypto, stored: string): string {
    if !Marked(stored) || !c.enabled then stored
    else
      match c.decipher(stored[|PREFIX|..])
      case Some(p) => p
      case None => stored
  }

  /** Not itself the marked form of a ciphertext that opens to something else. */
  predicate Faithful(c: Crypto, plain: string) {
    c.enabled && Marked(plain) ==> c.decipher(plain[|PREFIX|..]) in {None, Some(plain)}
  }

  /** Decrypting what was encrypted gives the value back exactly when the value does
      not itself carry the marker of a ciphertext that opens to something else. */
  lemma EncryptRoundTrip(c: Crypto, nonce: string, plain: string)
    requires Lawful(c)
    ensures Decrypt(c, Encrypt(c, nonce, plain)) == plain <==> Faithful(c, plain)
    ensures Faithful(c, plain) ==> Decrypt(c, plain) == plain
    ensures c.enabled ==> Marked(Encrypt(c, nonce, plain))
  {
    if c.enabled && !Marked(plain) {
      var stored := PREFIX + c.cipher(nonce, plain);
      assert stored[|PREFIX|..] == c.cipher(nonce, plain);
    }
  }

  /** With a key, the stored form is the marker and one encryption under the given nonce, so equal
      plaintexts are told apart whenever the cipher tells their nonces apart. */
  lemma EncryptUsesNonce(c: Crypto, nonce: string, nonce': string, plain: string)
    requires c.enabled && !("pii1:" <= plain) && c.cipher(nonce, plain) != c.cipher(nonce', plain)
    ensures "pii1:" <= Encrypt(c, nonce, plain)
    ensures Encrypt(c, nonce, plain)[5..] == c.cipher(nonce, plain)
    ensures Encrypt(c, nonce, plain) != Encrypt(c, nonce', plain)
  {
    assert (PREFIX + c.cipher(nonce, plain))[5..] == c.cipher(nonce, plain);
    assert (PREFIX + c.cipher(nonce', plain))[5..] == c.cipher(nonce', plain);
  }

  /** The disabled codec stores and returns plaintext unchanged. */
  lemma DisabledIsIdentity(c: Crypto, nonce: string, s: string)
    requires !c.enabled
    ensures Encrypt(c, nonce, s) == s && Decrypt(c, s) == s
  {
  }
}
