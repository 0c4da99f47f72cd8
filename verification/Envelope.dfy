/** Sealed-sender envelopes, `core/src/envelope.rs`: size buckets, sealing and opening. */
module Envelope {
  import opened Results
  import opened KeySchedule
  import opened Framing

  const LEN_PREFIX: nat := 4
  const MIN_BUCKET: nat := 512
  const MAX_POW2_BUCKET: nat := 8192
  const INNER_PREFIX_LEN: nat := 64
  const VERSION: byte := 2

  // ------------------------------------------------------------------ buckets

  /** `usize::next_power_of_two`. */
  function NextPowerOfTwo(n: nat): nat {
    if n <= 1 then 1 else 2 * NextPowerOfTwo((n + 1) / 2)
  }

  function Bucket(len: nat): nat {
    var needed := len + LEN_PREFIX;
    if needed <= MIN_BUCKET then MIN_BUCKET
    else if needed <= MAX_POW2_BUCKET then NextPowerOfTwo(needed)
    else (needed + MAX_POW2_BUCKET - 1) / MAX_POW2_BUCKET * MAX_POW2_BUCKET
  }

  /** The sizes a padded payload can have. */
  predicate Size(b: nat) {
    b == 512 || b == 1024 || b == 2048 || b == 4096 || (b > 0 && b % 8192 == 0)
  }

  function Pow2(k: nat): nat {
    if k == 0 then 1 else 2 * Pow2(k - 1)
  }

  lemma {:induction false} NextPowerOfTwoIs(n: nat, k: nat)
    requires n <= Pow2(k) && (k > 0 ==> Pow2(k - 1) < n)
    ensures NextPowerOfTwo(n) == Pow2(k)
    decreases k
  {
    if k > 0 {
      NextPowerOfTwoIs((n + 1) / 2, k - 1);
    }
  }

  lemma {:induction false} MiddlePowers()
    ensures Pow2(9) == 512 && Pow2(10) == 1024 && Pow2(11) == 2048 && Pow2(12) == 4096 && Pow2(13) == 8192
  {
    assert Pow2(5) == 32;
    assert Pow2(7) == 128;
    assert Pow2(9) == 512;
    assert Pow2(11) == 2048;
  }

  /** The bucket is the least size that holds the payload and its length prefix, and above the
      smallest bucket it is less than twice what is needed. */
  lemma {:induction false} BucketIsLeastSize(len: nat)
    ensures Size(Bucket(len)) && len + LEN_PREFIX <= Bucket(len)
    ensures forall b: nat :: Size(b) && len + LEN_PREFIX <= b ==> Bucket(len) <= b
    ensures len + LEN_PREFIX > MIN_BUCKET ==> Bucket(len) < 2 * (len + LEN_PREFIX)
  {
    var needed := len + LEN_PREFIX;
    if MIN_BUCKET < needed <= MAX_POW2_BUCKET {
      MiddlePowers();
      var k := if needed <= 1024 then 10 else if needed <= 2048 then 11 else if needed <= 4096 then 12 else 13;
      NextPowerOfTwoIs(needed, k);
    } else if needed > MAX_POW2_BUCKET {
      forall b: nat | Size(b) && needed <= b
        ensures Bucket(len) <= b
      {
        var q := b / MAX_POW2_BUCKET;
        assert b == q * MAX_POW2_BUCKET;
      }
    }
  }

  // ------------------------------------------------------------------ sealing and opening

  type Key32 = b: Bytes | |b| == 32 witness seq(32, i => 0)

  /** The identity keys a sender embeds. */
  datatype Sender = Sender(ed: Key32, dh: Key32)

  datatype Blob = Blob(version: byte, ephemeral: nat, ct: Ciphertext<Bytes, nat>) | TooShort(bytes: Bytes)

  datatype OpenedEnvelope = OpenedEnvelope(senderEd: Key32, senderDh: Key32, payload: Bytes)

  function KeyFor(secret: nat, pub: nat, ephemeral: nat, recipient: nat): Key {
    SealKey(Dh(secret, pub), ephemeral, recipient)
  }

  function Zeros(n: nat): Bytes {
    seq(n, i => 0)
  }

  /** Identity keys, length, payload, zero padding up to the bucket. */
  function Inner(sender: Sender, payload: Bytes): Bytes {
    BucketIsLeastSize(|payload|);
    sender.ed + sender.dh + Le32(|payload|) + payload + Zeros(Bucket(|payload|) - LEN_PREFIX - |payload|)
  }

  /** `ephemeral` is freshly drawn. */
  function Seal(sender: Sender, recipient: nat, payload: Bytes, ephemeral: nat): Blob {
    var key := KeyFor(ephemeral, recipient, ephemeral, recipient);
    Blob(VERSION, ephemeral, AeadSeal(key, Inner(sender, payload), ephemeral))
  }

  function ReadInner(inner: Bytes): Result<OpenedEnvelope> {
    if |inner| < INNER_PREFIX_LEN + LEN_PREFIX then Err(DecryptFailed)
    else
      var start := INNER_PREFIX_LEN + LEN_PREFIX;
      var len := FromLe32(inner[INNER_PREFIX_LEN..start]);
      if len > |inner| - start then Err(DecryptFailed)
      else Ok(OpenedEnvelope(inner[..32], inner[32..64], inner[start..start + len]))
  }

  function Open(recipient: nat, blob: Blob): Result<OpenedEnvelope> {
    if blob.TooShort? || blob.version != VERSION then Err(DecryptFailed)
    else
      var inner := AeadOpen(KeyFor(recipient, blob.ephemeral, blob.ephemeral, recipient), blob.ct, blob.ephemeral);
      if inner.Err? then Err(DecryptFailed) else ReadInner(inner.value)
  }

  /** What is sealed: both identity keys, the length, the payload and zeros up to the bucket. */
  lemma {:induction false} PaddedWithZeros(sender: Sender, payload: Bytes)
    ensures var inner, end := Inner(sender, payload), 68 + |payload|;
            && |inner| == 64 + Bucket(|payload|) && end <= |inner|
            && inner[..32] == sender.ed && inner[32..64] == sender.dh && inner[64..68] == Le32(|payload|)
            && inner[68..end] == payload && forall i :: end <= i < |inner| ==> inner[i] == 0
  {
    hide Le32, Bucket;
    BucketIsLeastSize(|payload|);
  }

  /** The buffers as the source assembles them. */
  method SealEnvelope(sender: Sender, recipient: nat, payload: Bytes, ephemeral: nat) returns (blob: Blob)
    ensures blob == Seal(sender, recipient, payload, ephemeral)
  {
    BucketIsLeastSize(|payload|);
    var padded := Bucket(|payload|);
    var inner := sender.ed;
    inner := inner + sender.dh;
    inner := inner + Le32(|payload|);
    inner := inner + payload;
    inner := inner + Zeros(INNER_PREFIX_LEN + padded - |inner|);
    return Blob(VERSION, ephemeral, AeadSeal(KeyFor(ephemeral, recipient, ephemeral, recipient), inner, ephemeral));
  }

  lemma {:induction false} ReadInnerIs(sender: Sender, payload: Bytes)
    ensures ReadInner(Inner(sender, payload)) ==
            Ok(OpenedEnvelope(sender.ed, sender.dh, payload[..|payload| % WORD]))
  {
    hide Le32, FromLe32;
    BucketIsLeastSize(|payload|);
    WriteThenRead(|payload|);
    var inner := Inner(sender, payload);
    assert inner[..32] == sender.ed && inner[32..64] == sender.dh;
    assert inner[64..68] == Le32(|payload|);
    assert inner[68..68 + |payload|] == payload;
    assert inner[68..68 + |payload| % WORD] == payload[..|payload| % WORD];
  }

  /** Every ephemeral key and recipient have their own sealing key. */
  lemma {:induction false} OneKeyPerEnvelope(ephemeral: nat, recipient: nat, ephemeral': nat, recipient': nat)
    ensures KeyFor(ephemeral, recipient, ephemeral, recipient) == KeyFor(ephemeral', recipient', ephemeral', recipient')
            <==> ephemeral == ephemeral' && recipient == recipient'
    ensures KeyFor(ephemeral, recipient, ephemeral, recipient) == KeyFor(recipient, ephemeral, ephemeral, recipient)
  {
  }

  /** The recipient gets back the sender's keys and the payload, if and only if the payload's
      length fits the 32-bit prefix; nobody else can open the envelope. */
  lemma {:induction false} OpenInvertsSeal(sender: Sender, recipient: nat, payload: Bytes, ephemeral: nat, other: nat)
    ensures |payload| < WORD <==>
              Open(recipient, Seal(sender, recipient, payload, ephemeral)) ==
              Ok(OpenedEnvelope(sender.ed, sender.dh, payload))
    ensures other != recipient ==> Open(other, Seal(sender, recipient, payload, ephemeral)) == Err(DecryptFailed)
  {
    ReadInnerIs(sender, payload);
    assert |payload| >= WORD ==> |payload[..|payload| % WORD]| < |payload|;
  }

  /** An envelope opens exactly if it is of this version, sealed for the recipient under the
      ephemeral key it shows, and holds two identity keys and a payload within its length. */
  lemma {:induction false} OpensExactly(recipient: nat, blob: Blob, o: OpenedEnvelope)
    ensures Open(recipient, blob) == Ok(o) <==>
              && blob.Blob? && blob.version == VERSION && |o.payload| < WORD
              && exists rest: Bytes ::
                   blob.ct == AeadSeal(KeyFor(recipient, blob.ephemeral, blob.ephemeral, recipient),
                                       o.senderEd + o.senderDh + Le32(|o.payload|) + o.payload + rest, blob.ephemeral)
  {
    hide Le32, FromLe32;
    if Open(recipient, blob) == Ok(o) {
      var key := KeyFor(recipient, blob.ephemeral, blob.ephemeral, recipient);
      var inner := AeadOpen(key, blob.ct, blob.ephemeral).value;
      ReadThenWrite(inner[64..68]);
      assert inner == o.senderEd + o.senderDh + Le32(|o.payload|) + o.payload + inner[68 + |o.payload|..];
    }
    forall rest: Bytes | |o.payload| < WORD
      ensures ReadInner(o.senderEd + o.senderDh + Le32(|o.payload|) + o.payload + rest) == Ok(o)
    {
      ReadParts(o, rest);
    }
  }

  lemma {:induction false} ReadParts(o: OpenedEnvelope, rest: Bytes)
    requires |o.payload| < WORD
    ensures ReadInner(o.senderEd + o.senderDh + Le32(|o.payload|) + o.payload + rest) == Ok(o)
  {
    hide Le32, FromLe32;
    WriteThenRead(|o.payload|);
    var inner := o.senderEd + o.senderDh + Le32(|o.payload|) + o.payload + rest;
    assert inner[..32] == o.senderEd && inner[32..64] == o.senderDh;
    assert inner[64..68] == Le32(|o.payload|) && inner[68..68 + |o.payload|] == o.payload;
  }

  /** Bytes on the wire: version, ephemeral key, ciphertext with its 16-byte tag. */
  function WireLength(blob: Blob): nat {
    match blob
    case Blob(_, _, Sealed(_, inner, _)) => 1 + 32 + |inner| + 16
    case Blob(_, _, Junk(bytes)) => 1 + 32 + |bytes|
    case TooShort(bytes) => |bytes|
  }

  /** On the wire two envelopes have equal length exactly when their payloads share a bucket. */
  lemma {:induction false} LengthRevealsOnlyTheBucket(a: Sender, b: Sender, to: nat, to': nat, p: Bytes, q: Bytes,
                                                      e: nat, e': nat)
    ensures WireLength(Seal(a, to, p, e)) == WireLength(Seal(b, to', q, e')) <==> Bucket(|p|) == Bucket(|q|)
    ensures WireLength(Seal(a, to, p, e)) == 1 + 32 + (32 + 32 + Bucket(|p|)) + 16
  {
    BucketIsLeastSize(|p|);
    BucketIsLeastSize(|q|);
    assert |Inner(a, p)| == INNER_PREFIX_LEN + Bucket(|p|);
    assert |Inner(b, q)| == INNER_PREFIX_LEN + Bucket(|q|);
  }
}
