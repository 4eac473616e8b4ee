/**
 * The cryptographic primitives that packages/protocol/src/double-ratchet.ts
 * imports. They are parameters of the model: a Suite is any choice of functions
 * that meets the laws below, and every theorem holds for every Suite.
 */
module Primitives {
  import opened Common

  newtype Byte = b: int | 0 <= b < 256

  type Bytes = seq<Byte>

  const HASH_LENGTH: nat := 32
  const NONCE_LENGTH: nat := 24
  const KEY_LENGTH: nat := 32

  /** 32 zero bytes. */
  const ZEROS: Bytes :=
    [0, 0, 0, 0, 0, 0, 0, 0, 0, 0, 0, 0, 0, 0, 0, 0, 0, 0, 0, 0, 0, 0, 0, 0, 0, 0, 0, 0, 0, 0, 0, 0]

  /** The UTF-8 bytes of a text of plain ASCII characters. */
  function Ascii(text: string): Bytes {
    seq(|text|, k requires 0 <= k < |text| => if text[k] < 128 as char then text[k] as Byte else 0)
  }

  datatype RawSuite = RawSuite(
    hmacOf: (Bytes, Bytes) -> Bytes,
    scalarMultOf: (Bytes, Bytes) -> Bytes,
    boxPublicOf: Bytes -> Bytes,
    sealOf: (Bytes, Bytes, Bytes) -> Bytes,
    openOf: (Bytes, Bytes, Bytes) -> Option<Bytes>,
    signOf: (Bytes, Bytes) -> Bytes,
    verifyOf: (Bytes, Bytes, Bytes) -> bool,
    signPublicOf: Bytes -> Bytes)

  /**
   * HMAC-SHA256 yields 32 bytes, as a public key has; X25519 commutes (section
   * 6.1 of RFC 7748); secretbox.open undoes secretbox; and verify accepts what
   * sign made.
   */
  ghost predicate Lawful(s: RawSuite) {
    && (forall k, d :: |s.hmacOf(k, d)| == HASH_LENGTH)
    && (forall x :: |s.boxPublicOf(x)| == KEY_LENGTH)
    && (forall x, y :: s.scalarMultOf(x, s.boxPublicOf(y)) == s.scalarMultOf(y, s.boxPublicOf(x)))
    && (forall m, n, k :: s.openOf(s.sealOf(m, n, k), n, k) == Some(m))
    && (forall m, k :: s.verifyOf(m, s.signOf(m, k), s.signPublicOf(k)))
  }

  /** A suite that meets the laws, so that they do not contradict each other. */
  function PlainSuite(): RawSuite {
    RawSuite(
      (k, d) => ZEROS,
      (x, p) => [],
      x => ZEROS,
      (m, n, k) => m,
      (b, n, k) => Some(b),
      (m, k) => [],
      (m, s, p) => true,
      k => k)
  }

  type Suite = s: RawSuite | Lawful(s) witness PlainSuite()

  function Hmac(c: Suite, key: Bytes, data: Bytes): (r: Bytes)
    ensures |r| == HASH_LENGTH
  {
    c.hmacOf(key, data)
  }

  /** Diffie-Hellman of a secret key with a public key. */
  function Dh(c: Suite, secret: Bytes, public: Bytes): Bytes {
    c.scalarMultOf(secret, public)
  }

  /** The public half of a freshly generated key pair. */
  function PublicKey(c: Suite, secret: Bytes): (r: Bytes)
    ensures |r| == KEY_LENGTH
  {
    c.boxPublicOf(secret)
  }

  lemma DhCommutes(c: Suite, x: Bytes, y: Bytes)
    ensures Dh(c, x, PublicKey(c, y)) == Dh(c, y, PublicKey(c, x))
  {
  }

  function Sign(c: Suite, message: Bytes, secret: Bytes): Bytes {
    c.signOf(message, secret)
  }

  function SignPublic(c: Suite, secret: Bytes): Bytes {
    c.signPublicOf(secret)
  }

  predicate Verify(c: Suite, message: Bytes, signature: Bytes, public: Bytes) {
    c.verifyOf(message, signature, public)
  }

  lemma SignedVerifies(c: Suite, message: Bytes, secret: Bytes)
    ensures Verify(c, message, Sign(c, message, secret), SignPublic(c, secret))
  {
  }

  /** The transport form of a secretbox: the nonce, then the box. */
  function Seal(c: Suite, plaintext: Bytes, nonce: Bytes, mk: Bytes): Bytes {
    nonce + c.sealOf(plaintext, nonce, mk)
  }

  datatype Opened = Opened(plaintext: Bytes) | PackageTooShort | OpenFailed

  /** decryptSymmetric: split off the nonce and open the box. */
  function Open(c: Suite, transport: Bytes, mk: Bytes): Opened {
    if |transport| < NONCE_LENGTH then PackageTooShort
    else match c.openOf(transport[NONCE_LENGTH..], transport[..NONCE_LENGTH], mk)
      case Some(plaintext) => Opened(plaintext)
      case None => OpenFailed
  }

  /** A package is a nonce of 24 bytes and the box behind it; anything shorter is refused as such. */
  lemma OpenExact(c: Suite, transport: Bytes, mk: Bytes, plaintext: Bytes)
    ensures Open(c, transport, mk) == PackageTooShort <==> |transport| < NONCE_LENGTH
    ensures Open(c, transport, mk) == Opened(plaintext) <==> exists nonce, box ::
      |nonce| == NONCE_LENGTH && transport == nonce + box && c.openOf(box, nonce, mk) == Some(plaintext)
  {
    if Open(c, transport, mk) == Opened(plaintext) {
      assert transport == transport[..NONCE_LENGTH] + transport[NONCE_LENGTH..];
    }
    if nonce, box :| |nonce| == NONCE_LENGTH && transport == nonce + box
                     && c.openOf(box, nonce, mk) == Some(plaintext)
    {
      assert transport[..NONCE_LENGTH] == nonce && transport[NONCE_LENGTH..] == box;
    }
  }

  lemma OpenSealed(c: Suite, plaintext: Bytes, nonce: Bytes, mk: Bytes)
    requires |nonce| == NONCE_LENGTH
    ensures Open(c, Seal(c, plaintext, nonce, mk), mk) == Opened(plaintext)
  {
    var t := Seal(c, plaintext, nonce, mk);
    assert t[..NONCE_LENGTH] == nonce;
    assert t[NONCE_LENGTH..] == c.sealOf(plaintext, nonce, mk);
  }

  // ---- suites that tell keys apart ----

  function Fill(b: Byte): (r: Bytes)
    ensures |r| == HASH_LENGTH && r[0] == b
  {
    seq(HASH_LENGTH, _ => b)
  }

  /** Cut or padded to the length of a key. */
  function Fit(x: Bytes): (r: Bytes)
    ensures |r| == KEY_LENGTH
  {
    (x + ZEROS)[..KEY_LENGTH]
  }

  /**
   * A suite in which HMAC yields the mark or the other value, as the test says, a box opens only with
   * the key it was sealed with, and a signature verifies only with the message and the key it was made for.
   */
  function Telling(marks: (Bytes, Bytes) -> bool, mark: Bytes, other: Bytes): (c: Suite)
    requires |mark| == HASH_LENGTH && |other| == HASH_LENGTH
    ensures forall k, d :: Hmac(c, k, d) == if marks(k, d) then mark else other
    ensures forall x :: PublicKey(c, x) == Fit(x)
    ensures forall x, p :: Dh(c, x, p) == ZEROS
    ensures forall m, n, k, k' :: |k| == |k'| && k != k' ==> c.openOf(c.sealOf(m, n, k), n, k') == None
  {
    var raw := RawSuite(
      (k, d) => if marks(k, d) then mark else other,
      (x, p) => ZEROS,
      x => Fit(x),
      (m, n, k) => k + m,
      (b, n, k) => if k <= b then Some(b[|k|..]) else None,
      (m, k) => k + m,
      (m, s, p) => s == p + m,
      k => k);
    assert Lawful(raw) by {
      forall m, n, k ensures raw.openOf(raw.sealOf(m, n, k), n, k) == Some(m) {
        assert (k + m)[|k|..] == m;
      }
    }
    raw
  }

  /** HMAC values of the one-byte labels that the ratchets use never meet, whatever the keys. */
  ghost predicate Labelled(c: Suite) {
    forall k, k', a: Byte, b: Byte :: Hmac(c, k, [a]) == Hmac(c, k', [b]) ==> a == b
  }

  lemma SomeSuiteIsLabelled() returns (c: Suite)
    ensures Labelled(c)
  {
    var raw := PlainSuite().(hmacOf := (k: Bytes, d: Bytes) => Fill(if |d| == 1 then d[0] else 0));
    assert Lawful(raw);
    c := raw;
    forall k, k', a: Byte, b: Byte | Hmac(c, k, [a]) == Hmac(c, k', [b]) ensures a == b {
      assert Fill(a)[0] == Fill(b)[0];
    }
  }

  /** HMAC under this value yields the value again. */
  ghost predicate PassesOn(c: Suite, v: Bytes) {
    forall d :: Hmac(c, v, d) == v
  }
}
