/**
 The PQXDH key agreement of `core/src/handshake.rs`. Both sides append their Diffie-Hellman terms
 and the ML-KEM secret to one list and hash it into the root key.
 */
module Handshake {
  import opened Results
  import opened KeySchedule
  import opened Identity

  datatype HandshakeHeader = HandshakeHeader(
    identityEd: nat, identityDh: nat, ephemeralDh: nat,
    signedPrekeyId: nat, oneTimePrekeyId: Option<nat>, kyberPrekeyId: nat,
    kyberCiphertext: KemCiphertext)

  function Decapsulate(keyId: nat, ct: KemCiphertext): Result<KemSecret> {
    match ct
    case KemMalformed => Err(MalformedKey)
    case KemCiphertext(k, coins) => Ok(if k == keyId then Encapsulated(keyId, coins) else Rejected(keyId, ct))
  }

  datatype Initiation = Initiation(root: Key, header: HandshakeHeader, remotePrekey: nat)

  /** Initiator side; `ephemeral` and `coins` are freshly drawn. */
  function Initiate(my: AccountState, b: Bundle, ephemeral: nat, coins: nat): Initiation {
    var ikm := [DhPart(Dh(my.dhIdentity, b.signedPrekey)),
                DhPart(Dh(ephemeral, b.identityDh)),
                DhPart(Dh(ephemeral, b.signedPrekey))]
               + (if b.oneTimePrekey.Some? then [DhPart(Dh(ephemeral, b.oneTimePrekey.value))] else [])
               + [KemPart(Encapsulated(b.kyberPrekey, coins))];
    Initiation(
      Seed(ikm),
      HandshakeHeader(my.ed, my.dhIdentity, ephemeral, b.signedPrekeyId, b.oneTimePrekeyId,
                      b.kyberPrekeyId, KemCiphertext(b.kyberPrekey, coins)),
      b.signedPrekey)
  }

  /** Responder side. The one-time prekey is consumed before the ciphertext is opened. */
  function Respond(my: AccountState, hs: HandshakeHeader): (AccountState, Result<Key>) {
    if hs.kyberPrekeyId != my.kyberPrekeyId || hs.signedPrekeyId != my.signedPrekeyId then (my, Err(UnknownPrekey))
    else
      var (after, oneTime) :=
        if hs.oneTimePrekeyId.None? then (my, Ok(None))
        else
          var (after, taken) := Take(my, hs.oneTimePrekeyId.value);
          (after, if taken.Ok? then Ok(Some(taken.value)) else Err(taken.error));
      if oneTime.Err? then (after, Err(oneTime.error))
      else
        var kem := Decapsulate(my.kyber, hs.kyberCiphertext);
        if kem.Err? then (after, Err(kem.error))
        else (after, Ok(Seed(ResponderIkm(my, hs, oneTime.value, kem.value))))
  }

  function ResponderIkm(my: AccountState, hs: HandshakeHeader, oneTime: Option<nat>, kem: KemSecret): seq<Ikm> {
    [DhPart(Dh(my.signedPrekey, hs.identityDh)),
     DhPart(Dh(my.dhIdentity, hs.ephemeralDh)),
     DhPart(Dh(my.signedPrekey, hs.ephemeralDh))]
    + (if oneTime.Some? then [DhPart(Dh(oneTime.value, hs.ephemeralDh))] else [])
    + [KemPart(kem)]
  }

  /** When a header is answered, why it is refused, and what it costs: wrong prekey ids cost nothing, an
      unknown one-time prekey costs nothing, and a known one is spent even if the ciphertext then
      turns out malformed. */
  lemma {:induction false} RespondsExactly(my: AccountState, hs: HandshakeHeader)
    ensures var (after, r) := Respond(my, hs);
            var known := hs.kyberPrekeyId == my.kyberPrekeyId && hs.signedPrekeyId == my.signedPrekeyId;
            var pooled := hs.oneTimePrekeyId.Some? ==> hs.oneTimePrekeyId.value in my.oneTime;
            && (r.Ok? <==> known && pooled && hs.kyberCiphertext != KemMalformed)
            && (r == Err(UnknownPrekey) <==> !known || !pooled)
            && (r == Err(MalformedKey) <==> known && pooled && hs.kyberCiphertext == KemMalformed)
            && (forall id :: id in after.oneTime <==>
                  id in my.oneTime && !(known && pooled && hs.oneTimePrekeyId == Some(id)))
            && after == my.(oneTime := after.oneTime)
            && (forall id :: id in after.oneTime ==> after.oneTime[id] == my.oneTime[id])
  {
  }

  /** `RespondToHandshake` in place, on the account object. */
  method RespondToHandshake(my: Account, hs: HandshakeHeader) returns (r: Result<Key>)
    modifies my`oneTime
    ensures (my.Value(), r) == Respond(old(my.Value()), hs)
  {
    if hs.kyberPrekeyId != my.kyberPrekeyId || hs.signedPrekeyId != my.signedPrekeyId {
      return Err(UnknownPrekey);
    }
    var oneTime := None;
    if hs.oneTimePrekeyId.Some? {
      var taken := my.TakeOneTimePrekey(hs.oneTimePrekeyId.value);
      if taken.Err? {
        return Err(taken.error);
      }
      oneTime := Some(taken.value);
    }
    var ikm := [DhPart(Dh(my.signedPrekey, hs.identityDh))];
    ikm := ikm + [DhPart(Dh(my.dhIdentity, hs.ephemeralDh))];
    ikm := ikm + [DhPart(Dh(my.signedPrekey, hs.ephemeralDh))];
    if oneTime.Some? {
      ikm := ikm + [DhPart(Dh(oneTime.value, hs.ephemeralDh))];
    }
    var kem := Decapsulate(my.kyber, hs.kyberCiphertext);
    if kem.Err? {
      return Err(kem.error);
    }
    ikm := ikm + [KemPart(kem.value)];
    assert ikm == ResponderIkm(my.Value(), hs, oneTime, kem.value);
    return Ok(Seed(ikm));
  }

  /** The one-time prekey `oneTime` (id and public key) is in `bob`'s pool, or there is none. */
  predicate Offered(bob: AccountState, oneTime: Option<(nat, nat)>) {
    oneTime.Some? ==> oneTime.value.0 in bob.oneTime && bob.oneTime[oneTime.value.0] == oneTime.value.1
  }

  /** Whatever bundle of his `alice` used, `bob` derives her root key from her header, provided
      its one-time prekey is still pooled, and afterwards it is not; if it is gone he refuses. */
  lemma {:induction false} HandshakeAgrees(alice: AccountState, bob: AccountState, later: AccountState,
                                           oneTime: Option<(nat, nat)>, ephemeral: nat, coins: nat)
    requires Offered(bob, oneTime)
    requires later == bob.(oneTime := later.oneTime, nextOpkId := later.nextOpkId)
    requires forall id :: id in later.oneTime && id in bob.oneTime ==> later.oneTime[id] == bob.oneTime[id]
    ensures var init := Initiate(alice, BundleWith(bob, oneTime), ephemeral, coins);
            && init.remotePrekey == bob.signedPrekey
            && Respond(later, init.header) ==
               if oneTime.None? then (later, Ok(init.root))
               else if oneTime.value.0 in later.oneTime then
                 (later.(oneTime := later.oneTime - {oneTime.value.0}), Ok(init.root))
               else (later, Err(UnknownPrekey))
  {
    var init := Initiate(alice, BundleWith(bob, oneTime), ephemeral, coins);
    var used := if oneTime.Some? then Some(oneTime.value.1) else None;
    assert init.root == Seed(ResponderIkm(later, init.header, used, Encapsulated(bob.kyber, coins)));
  }

  /** Conversely a header that leads `bob` to the same root key carries the same identity key,
      ephemeral key, one-time secret and ciphertext. (The signing identity is not among them:
      the session binds it into every message's associated data instead.) */
  lemma {:induction false} RootBindsHeader(alice: AccountState, bob: AccountState, oneTime: Option<(nat, nat)>,
                                           ephemeral: nat, coins: nat, hs: HandshakeHeader)
    requires Offered(bob, oneTime)
    requires Respond(bob, hs).1 == Ok(Initiate(alice, BundleWith(bob, oneTime), ephemeral, coins).root)
    ensures hs.identityDh == alice.dhIdentity && hs.ephemeralDh == ephemeral
    ensures hs.kyberCiphertext == KemCiphertext(bob.kyber, coins)
    ensures hs.oneTimePrekeyId.Some? <==> oneTime.Some?
    ensures oneTime.Some? ==> bob.oneTime[hs.oneTimePrekeyId.value] == oneTime.value.1
  {
    var sent := Initiate(alice, BundleWith(bob, oneTime), ephemeral, coins).root.ikm;
    var used := if hs.oneTimePrekeyId.None? then None else Some(bob.oneTime[hs.oneTimePrekeyId.value]);
    var ikm := ResponderIkm(bob, hs, used, Decapsulate(bob.kyber, hs.kyberCiphertext).value);
    assert ikm == sent;
    assert |ikm| == (if used.Some? then 5 else 4);
    assert |sent| == (if oneTime.Some? then 5 else 4);
    assert ikm[0] == sent[0] && ikm[2] == sent[2] && ikm[3] == sent[3] && ikm[|ikm| - 1] == sent[|ikm| - 1];
  }
  /** And all of the bundle's keys enter the root key: from one account with one ephemeral key, equal roots
      come from equal identity, signed, one-time and ML-KEM keys. */
  lemma {:induction false} RootBindsBundle(alice: AccountState, b: Bundle, c: Bundle, ephemeral: nat, coins: nat,
                                           coins': nat)
    requires Initiate(alice, b, ephemeral, coins).root == Initiate(alice, c, ephemeral, coins').root
    ensures b.identityDh == c.identityDh && b.signedPrekey == c.signedPrekey && b.oneTimePrekey == c.oneTimePrekey
    ensures b.kyberPrekey == c.kyberPrekey && coins == coins'
  {
    var i, j := Initiate(alice, b, ephemeral, coins).root.ikm, Initiate(alice, c, ephemeral, coins').root.ikm;
    assert i[1] == j[1] && i[2] == j[2] && i[3] == j[3] && i[|i| - 1] == j[|j| - 1];
  }
}
