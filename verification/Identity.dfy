/**
 Accounts, prekey bundles and the one-time prekey pool of `core/src/identity.rs`. A public key
 carries the number of its secret; a signature is the term naming signer, purpose and key.
 */
module Identity {
  import opened Results

  datatype Purpose = IdentityDh | SignedPrekey | KyberPrekey

  datatype Signature = Signature(signer: nat, purpose: Purpose, key: nat) | Forgery(bytes: Bytes)

  datatype Bundle = Bundle(
    identityEd: nat,
    identityDh: nat, identityDhSig: Signature,
    signedPrekey: nat, signedPrekeyId: nat, signedPrekeySig: Signature,
    kyberPrekey: nat, kyberPrekeyId: nat, kyberPrekeySig: Signature,
    oneTimePrekey: Option<nat>, oneTimePrekeyId: Option<nat>)

  function VerifySig(signer: nat, purpose: Purpose, key: nat, sig: Signature): bool {
    sig == Signature(signer, purpose, key)
  }

  function VerifyBundle(b: Bundle): Result<()> {
    if !VerifySig(b.identityEd, IdentityDh, b.identityDh, b.identityDhSig) then Err(BadSignature)
    else if !VerifySig(b.identityEd, SignedPrekey, b.signedPrekey, b.signedPrekeySig) then Err(BadSignature)
    else if !VerifySig(b.identityEd, KyberPrekey, b.kyberPrekey, b.kyberPrekeySig) then Err(BadSignature)
    else Ok(())
  }

  datatype AccountState = AccountState(
    ed: nat, dhIdentity: nat,
    signedPrekeyId: nat, signedPrekey: nat,
    kyberPrekeyId: nat, kyber: nat,
    oneTime: map<nat, nat>, nextOpkId: nat)

  /** Every pooled id was minted, so it lies below the next id to mint. */
  predicate PoolOk(a: AccountState) {
    forall id :: id in a.oneTime ==> id < a.nextOpkId
  }

  /** The pool's ids below `bound` with their public keys, in ascending order. */
  function Publics(pool: map<nat, nat>, bound: nat): seq<(nat, nat)> {
    if bound == 0 then []
    else Publics(pool, bound - 1) + if bound - 1 in pool then [(bound - 1, pool[bound - 1])] else []
  }

  /** The upload list is the pool itself: ascending ids, each with its key, none missing. */
  lemma {:induction false} PublicsArePool(pool: map<nat, nat>, bound: nat)
    ensures forall i, j :: 0 <= i < j < |Publics(pool, bound)| ==> Publics(pool, bound)[i].0 < Publics(pool, bound)[j].0
    ensures forall p :: p in Publics(pool, bound) <==> p.0 in pool && p.0 < bound && p.1 == pool[p.0]
  {
    if bound > 0 {
      PublicsArePool(pool, bound - 1);
      var init := Publics(pool, bound - 1);
      assert forall i :: 0 <= i < |init| ==> init[i] in init;
    }
  }

  /** A signed bundle carrying a given one-time prekey, or none. */
  function BundleWith(a: AccountState, oneTime: Option<(nat, nat)>): Bundle {
    Bundle(
      a.ed,
      a.dhIdentity, Signature(a.ed, IdentityDh, a.dhIdentity),
      a.signedPrekey, a.signedPrekeyId, Signature(a.ed, SignedPrekey, a.signedPrekey),
      a.kyber, a.kyberPrekeyId, Signature(a.ed, KyberPrekey, a.kyber),
      if oneTime.Some? then Some(oneTime.value.1) else None,
      if oneTime.Some? then Some(oneTime.value.0) else None)
  }

  /** `Account::bundle`: the lowest pooled id rides along. */
  function OwnBundle(a: AccountState): Bundle {
    var publics := Publics(a.oneTime, a.nextOpkId);
    BundleWith(a, if publics == [] then None else Some(publics[0]))
  }

  /** The bundle an account signs itself offers its lowest pooled one-time prekey, and none only if the
      pool is empty. */
  lemma {:induction false} OwnBundleIsLowest(a: AccountState)
    requires PoolOk(a)
    ensures var b := OwnBundle(a);
            && (b.oneTimePrekeyId.None? <==> a.oneTime == map[]) && (b.oneTimePrekey.None? <==> a.oneTime == map[])
            && (b.oneTimePrekeyId.Some? ==>
                  && b.oneTimePrekeyId.value in a.oneTime
                  && b.oneTimePrekey == Some(a.oneTime[b.oneTimePrekeyId.value])
                  && forall id :: id in a.oneTime ==> b.oneTimePrekeyId.value <= id)
  {
    var publics := Publics(a.oneTime, a.nextOpkId);
    PublicsArePool(a.oneTime, a.nextOpkId);
    if publics == [] {
      assert forall id :: id in a.oneTime ==> (id, a.oneTime[id]) in publics;
    } else {
      assert publics[0] in publics;
      forall id | id in a.oneTime
        ensures publics[0].0 <= id
      {
        assert (id, a.oneTime[id]) in publics;
      }
    }
  }

  /** The three signed keys of a bundle, each under its purpose. */
  function SignedKeys(b: Bundle): seq<(Purpose, nat, Signature)> {
    [(IdentityDh, b.identityDh, b.identityDhSig), (SignedPrekey, b.signedPrekey, b.signedPrekeySig),
     (KyberPrekey, b.kyberPrekey, b.kyberPrekeySig)]
  }

  /** A bundle passes exactly if each of its three keys carries the identity's signature for that key and
      purpose. */
  lemma {:induction false} VerifiesExactly(b: Bundle)
    ensures VerifyBundle(b) ==
            if forall k :: k in SignedKeys(b) ==> k.2 == Signature(b.identityEd, k.0, k.1) then Ok(())
            else Err(BadSignature)
  {
    assert SignedKeys(b)[0] in SignedKeys(b) && SignedKeys(b)[1] in SignedKeys(b) && SignedKeys(b)[2] in SignedKeys(b);
  }

  /** So, as long as nobody has a signature of the account's but those in its own bundles, a bundle that
      passes under its identity has its keys and no others. */
  lemma {:induction false} NoKeyIsSubstituted(bob: AccountState, b: Bundle)
    requires b.identityEd == bob.ed && VerifyBundle(b) == Ok(())
    requires forall k :: k in SignedKeys(b) && k.2.Signature? && k.2.signer == bob.ed ==>
               exists own :: own in SignedKeys(BundleWith(bob, None)) && k.2 == own.2
    ensures b.identityDh == bob.dhIdentity && b.signedPrekey == bob.signedPrekey && b.kyberPrekey == bob.kyber
  {
    var keys := SignedKeys(b);
    assert keys[0] in keys && keys[1] in keys && keys[2] in keys;
  }

  function Take(a: AccountState, id: nat): (AccountState, Result<nat>) {
    if id in a.oneTime then (a.(oneTime := a.oneTime - {id}), Ok(a.oneTime[id]))
    else (a, Err(UnknownPrekey))
  }

  /** Mint one prekey per drawn secret, under consecutive new ids. */
  function Replenish(a: AccountState, drawn: seq<nat>): AccountState
    decreases |drawn|
  {
    if drawn == [] then a
    else
      var n := |drawn| - 1;
      var b := Replenish(a, drawn[..n]);
      b.(oneTime := b.oneTime[b.nextOpkId := drawn[n]], nextOpkId := b.nextOpkId + 1)
  }

  /** Replenishing adds exactly the next ids, never one that was minted before. */
  lemma {:induction false} ReplenishMints(a: AccountState, drawn: seq<nat>)
    requires PoolOk(a)
    ensures var b := Replenish(a, drawn);
            && PoolOk(b)
            && b == a.(oneTime := b.oneTime, nextOpkId := a.nextOpkId + |drawn|)
            && (forall id :: id in b.oneTime <==> id in a.oneTime || a.nextOpkId <= id < a.nextOpkId + |drawn|)
            && (forall id :: id in b.oneTime ==>
                  b.oneTime[id] == if id < a.nextOpkId then a.oneTime[id] else drawn[id - a.nextOpkId])
    decreases |drawn|
  {
    if drawn != [] {
      ReplenishMints(a, drawn[..|drawn| - 1]);
    }
  }

  class Account {
    var ed: nat
    var dhIdentity: nat
    var signedPrekeyId: nat
    var signedPrekey: nat
    var kyberPrekeyId: nat
    var kyber: nat
    var oneTime: map<nat, nat>
    var nextOpkId: nat

    function Value(): AccountState
      reads this
    {
      AccountState(ed, dhIdentity, signedPrekeyId, signedPrekey, kyberPrekeyId, kyber, oneTime, nextOpkId)
    }

    /** A new account; `secrets` are its freshly drawn one-time prekeys. */
    constructor Generate(ed: nat, dhIdentity: nat, signedPrekey: nat, kyber: nat, secrets: seq<nat>)
      ensures Value() == Replenish(AccountState(ed, dhIdentity, 0, signedPrekey, 0, kyber, map[], 0), secrets)
      ensures PoolOk(Value())
    {
      this.ed, this.dhIdentity := ed, dhIdentity;
      this.signedPrekeyId, this.signedPrekey := 0, signedPrekey;
      this.kyberPrekeyId, this.kyber := 0, kyber;
      oneTime, nextOpkId := map[], 0;
      new;
      var _ := ReplenishOneTimePrekeys(secrets);
    }

    method TakeOneTimePrekey(id: nat) returns (r: Result<nat>)
      modifies this`oneTime
      ensures (Value(), r) == Take(old(Value()), id)
    {
      if id !in oneTime {
        return Err(UnknownPrekey);
      }
      r := Ok(oneTime[id]);
      oneTime := oneTime - {id};
    }

    method ReplenishOneTimePrekeys(drawn: seq<nat>) returns (ids: seq<nat>)
      requires PoolOk(Value())
      modifies this`oneTime, this`nextOpkId
      ensures Value() == Replenish(old(Value()), drawn) && PoolOk(Value())
      ensures ids == seq(|drawn|, i requires 0 <= i => old(nextOpkId) + i)
    {
      ids := [];
      for k := 0 to |drawn|
        invariant Value() == Replenish(old(Value()), drawn[..k])
        invariant nextOpkId == old(nextOpkId) + k
        invariant ids == seq(k, i requires 0 <= i => old(nextOpkId) + i)
      {
        assert drawn[..k + 1][..k] == drawn[..k];
        oneTime := oneTime[nextOpkId := drawn[k]];
        ids := ids + [nextOpkId];
        nextOpkId := nextOpkId + 1;
      }
      assert drawn[..|drawn|] == drawn;
      ReplenishMints(old(Value()), drawn);
    }

    method OneTimePrekeyPublics() returns (publics: seq<(nat, nat)>)
      ensures publics == Publics(oneTime, nextOpkId)
    {
      publics := [];
      for id := 0 to nextOpkId
        invariant publics == Publics(oneTime, id)
      {
        if id in oneTime {
          publics := publics + [(id, oneTime[id])];
        }
      }
    }
  }
}
