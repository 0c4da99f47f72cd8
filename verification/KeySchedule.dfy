/**
 The key schedule of `core/src/kdf.rs` as a free term algebra. A secret scalar is a natural
 number; its public key carries the same number. A key-derivation output is the term recording
 how it was derived, so two keys are equal exactly when they were derived alike.
 */
module KeySchedule {
  import opened Results

  /** A Diffie-Hellman output: the unordered pair of the two secrets behind it. */
  datatype Shared = Shared(low: nat, high: nat)

  function Dh(secret: nat, pub: nat): Shared {
    if secret <= pub then Shared(secret, pub) else Shared(pub, secret)
  }

  /** One entry of the handshake's input key material. */
  datatype Ikm = DhPart(shared: Shared) | KemPart(kem: KemSecret)

  /** What ML-KEM yields: the encapsulated secret, or the implicit-rejection value. */
  datatype KemSecret = Encapsulated(keyId: nat, coins: nat) | Rejected(keyId: nat, ct: KemCiphertext)

  datatype KemCiphertext = KemCiphertext(keyId: nat, coins: nat) | KemMalformed

  datatype Key =
    | Seed(ikm: seq<Ikm>)
    | Root(root: Key, dh: Shared)
    | Chain(root: Key, dh: Shared)
    | NextChain(ck: Key)
    | MessageKey(ck: Key)
    | SealKey(dh: Shared, ephemeral: nat, recipient: nat)

  /** The asymmetric step: next root key and the first key of a new chain. */
  function KdfRk(root: Key, dh: Shared): (Key, Key) {
    (Root(root, dh), Chain(root, dh))
  }

  /** The symmetric step: next chain key and the message key. */
  function KdfCk(ck: Key): (Key, Key) {
    (NextChain(ck), MessageKey(ck))
  }

  /** Number of root steps behind a key. */
  function Depth(k: Key): nat {
    match k
    case Seed(_) => 0
    case Root(r, _) => Depth(r) + 1
    case Chain(r, _) => Depth(r) + 1
    case NextChain(ck) => Depth(ck)
    case MessageKey(ck) => Depth(ck)
    case SealKey(_, _, _) => 0
  }

  /** Number of symmetric steps since the chain key was derived from a root. */
  function Index(k: Key): nat {
    match k
    case Seed(_) => 0
    case Root(_, _) => 0
    case Chain(_, _) => 0
    case NextChain(ck) => Index(ck) + 1
    case MessageKey(ck) => Index(ck)
    case SealKey(_, _, _) => 0
  }

  /** The chain key `n` symmetric steps after `ck`. */
  function Advance(ck: Key, n: nat): (after: Key)
    ensures Depth(after) == Depth(ck) && Index(after) == Index(ck) + n
  {
    if n == 0 then ck else NextChain(Advance(ck, n - 1))
  }

  /** The AEAD key and nonce are both expanded from the message key. */
  datatype Material = Material(key: Expansion, nonce: Expansion)
  datatype Expansion = ExpandedKey(mk: Key) | ExpandedNonce(mk: Key)

  function MessageMaterial(mk: Key): Material {
    Material(ExpandedKey(mk), ExpandedNonce(mk))
  }

  /** AEAD output binding plaintext and associated data, or bytes nobody sealed. */
  datatype Ciphertext<P, A> = Sealed(material: Material, plaintext: P, ad: A) | Junk(bytes: Bytes)

  function AeadSeal<P, A>(mk: Key, plaintext: P, ad: A): Ciphertext<P, A> {
    Sealed(MessageMaterial(mk), plaintext, ad)
  }

  function AeadOpen<P, A(==)>(mk: Key, ct: Ciphertext<P, A>, ad: A): (r: Result<P>)
    ensures r.Ok? ==> ct == AeadSeal(mk, r.value, ad)
    ensures r.Err? ==> r == Err(DecryptFailed)
  {
    match ct
    case Sealed(m, p, a) =>
      if m == MessageMaterial(mk) && a == ad then Ok(p) else Err(DecryptFailed)
    case Junk(_) => Err(DecryptFailed)
  }
}
