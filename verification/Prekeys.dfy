/**
 The life of one-time prekeys across the account, the relay directory and the handshake: minted
 once, published, handed out in order, and answered at most once.
 */
module Prekeys {
  import opened Results
  import opened Identity
  import opened Handshake
  import opened RelayStore

  /** The account and the relay, with the history of what happened to one-time prekeys: all ids
      minted, the last list published under the account's identity and whether the account
      itself published it, what was dispensed from it since, and the ids of the handshakes
      that completed. The relay lets anybody publish under any identity. */
  datatype Directory = Directory(
    account: AccountState,
    relay: Inner,
    minted: seq<nat>,
    published: seq<(nat, nat)>,
    own: bool,
    dispensed: seq<(nat, nat)>,
    completed: seq<nat>)

  datatype Event =
    | Replenished(drawn: seq<nat>)
    | PublishedOwn
    | PublishedOther(bundle: Bundle, oneTime: seq<(nat, nat)>)
    | Fetched(identity: nat)
    | Responded(hs: HandshakeHeader)

  /** `split_bundle`: the base bundle and the upload list. */
  function Split(a: AccountState): (Bundle, seq<(nat, nat)>) {
    (OwnBundle(a).(oneTimePrekey := None, oneTimePrekeyId := None), Publics(a.oneTime, a.nextOpkId))
  }

  function Ids(first: nat, count: nat): seq<nat> {
    seq(count, i requires 0 <= i => first + i)
  }

  function Step(d: Directory, e: Event): Directory {
    match e
    case Replenished(drawn) =>
      d.(account := Replenish(d.account, drawn), minted := d.minted + Ids(d.account.nextOpkId, |drawn|))
    case PublishedOwn =>
      var (base, oneTime) := Split(d.account);
      d.(relay := Publish(d.relay, base, oneTime), published := oneTime, own := true, dispensed := [])
    case PublishedOther(bundle, oneTime) =>
      var next := d.(relay := Publish(d.relay, bundle, oneTime));
      if bundle.identityEd == d.account.ed then next.(published := oneTime, own := false, dispensed := []) else next
    case Fetched(identity) =>
      var (relay, b) := Fetch(d.relay, identity);
      d.(relay := relay,
         dispensed := if && identity == d.account.ed && b.Some?
                         && b.value.oneTimePrekey.Some? && b.value.oneTimePrekeyId.Some?
                      then d.dispensed + [(b.value.oneTimePrekeyId.value, b.value.oneTimePrekey.value)]
                      else d.dispensed)
    case Responded(hs) =>
      var (account, r) := Respond(d.account, hs);
      d.(account := account,
         completed := if r.Ok? && hs.oneTimePrekeyId.Some? then d.completed + [hs.oneTimePrekeyId.value]
                      else d.completed)
  }

  function Run(d: Directory, events: seq<Event>): Directory
    decreases |events|
  {
    if events == [] then d else Run(Step(d, events[0]), events[1..])
  }

  /** A freshly generated account with its first batch, on a relay it has not used. */
  function Fresh(ed: nat, dhIdentity: nat, signedPrekey: nat, kyber: nat, drawn: seq<nat>, relay: Inner): Directory {
    Directory(Replenish(AccountState(ed, dhIdentity, 0, signedPrekey, 0, kyber, map[], 0), drawn),
              relay, Ids(0, |drawn|), [], false, [], [])
  }

  // ------------------------------------------------------------------ the invariant

  ghost predicate Ascending(s: seq<nat>) {
    forall i, j :: 0 <= i < j < |s| ==> s[i] < s[j]
  }

  ghost predicate DistinctIds(s: seq<nat>) {
    forall i, j :: 0 <= i < j < |s| ==> s[i] != s[j]
  }

  /** The relay's copy of the account's keys, once it has published. */
  ghost predicate Listed(d: Directory) {
    d.account.ed in d.relay.keys ==>
      && (d.own ==> d.relay.keys[d.account.ed].base == BundleWith(d.account, None))
      && d.relay.keys[d.account.ed].base.oneTimePrekey == None
      && d.published == d.dispensed + d.relay.keys[d.account.ed].oneTime
  }

  ghost predicate DirectoryOk(d: Directory) {
    && PoolOk(d.account)
    && Ascending(d.minted) && (forall id: nat :: id in d.minted <==> id < d.account.nextOpkId)
    && DistinctIds(d.completed)
    && (forall id :: id in d.completed ==> id in d.minted && id !in d.account.oneTime)
    && Listed(d) && (d.own ==> d.account.ed in d.relay.keys)
    && (forall p :: d.own && p in d.published ==>
          p.0 < d.account.nextOpkId && (p.0 in d.account.oneTime ==> d.account.oneTime[p.0] == p.1))
    && (forall i, j :: d.own && 0 <= i < j < |d.published| ==> d.published[i].0 < d.published[j].0)
    && |d.dispensed| <= |d.published| && d.dispensed == d.published[..|d.dispensed|]
  }

  lemma {:induction false} IdsGrow(minted: seq<nat>, next: nat, count: nat)
    requires Ascending(minted) && forall id: nat :: id in minted <==> id < next
    ensures Ascending(minted + Ids(next, count))
    ensures forall id: nat :: id in minted + Ids(next, count) <==> id < next + count
  {
    var all := minted + Ids(next, count);
    assert forall i :: 0 <= i < |minted| ==> minted[i] in minted;
    forall id: nat | id < next + count
      ensures id in all
    {
      if id >= next {
        assert all[|minted| + id - next] == id;
      }
    }
  }

  lemma {:induction false} StepKeeps(d: Directory, e: Event)
    requires DirectoryOk(d)
    ensures DirectoryOk(Step(d, e))
  {
    match e
    case Replenished(drawn) => ReplenishKeeps(d, drawn);
    case PublishedOwn => PublishKeeps(d);
    case PublishedOther(_, _) =>
    case Fetched(identity) => FetchKeeps(d, identity);
    case Responded(hs) => RespondKeeps(d, hs);
  }

  lemma {:induction false} ReplenishKeeps(d: Directory, drawn: seq<nat>)
    requires DirectoryOk(d)
    ensures DirectoryOk(Step(d, Replenished(drawn)))
  {
    ReplenishMints(d.account, drawn);
    IdsGrow(d.minted, d.account.nextOpkId, |drawn|);
    hide Ascending, Ids, Replenish;
  }

  lemma {:induction false} PublishKeeps(d: Directory)
    requires DirectoryOk(d)
    ensures DirectoryOk(Step(d, PublishedOwn))
  {
    hide Ascending, Publics, DistinctIds, OwnBundle;
    PublicsArePool(d.account.oneTime, d.account.nextOpkId);
    SplitBase(d.account);
  }

  lemma {:induction false} SplitBase(a: AccountState)
    ensures Split(a).0 == BundleWith(a, None)
  {
  }

  lemma {:induction false} RespondKeeps(d: Directory, hs: HandshakeHeader)
    requires DirectoryOk(d)
    ensures DirectoryOk(Step(d, Responded(hs)))
  {
    var (account, r) := Respond(d.account, hs);
    assert account == d.account.(oneTime := account.oneTime);
    assert forall id :: id in account.oneTime ==>
             id in d.account.oneTime && account.oneTime[id] == d.account.oneTime[id];
    assert r.Ok? && hs.oneTimePrekeyId.Some? ==>
             hs.oneTimePrekeyId.value in d.account.oneTime && hs.oneTimePrekeyId.value !in account.oneTime;
    hide Respond, Ascending;
  }

  lemma {:induction false} FetchKeeps(d: Directory, identity: nat)
    requires DirectoryOk(d)
    ensures DirectoryOk(Step(d, Fetched(identity)))
  {
    if identity == d.account.ed && identity in d.relay.keys {
      var pool := d.relay.keys[identity].oneTime;
      if pool != [] {
        assert d.published == d.dispensed + [pool[0]] + pool[1..];
      }
    }
  }

  lemma {:induction false} RunKeeps(d: Directory, events: seq<Event>)
    requires DirectoryOk(d)
    ensures DirectoryOk(Run(d, events))
    decreases |events|
  {
    if events != [] {
      StepKeeps(d, events[0]);
      RunKeeps(Step(d, events[0]), events[1..]);
    }
  }

  lemma {:induction false} FreshOk(ed: nat, dhIdentity: nat, signedPrekey: nat, kyber: nat, drawn: seq<nat>,
                                   relay: Inner)
    requires ed !in relay.keys
    ensures DirectoryOk(Fresh(ed, dhIdentity, signedPrekey, kyber, drawn, relay))
  {
    ReplenishMints(AccountState(ed, dhIdentity, 0, signedPrekey, 0, kyber, map[], 0), drawn);
    IdsGrow([], 0, |drawn|);
    assert [] + Ids(0, |drawn|) == Ids(0, |drawn|);
  }

  // ------------------------------------------------------------------ what every run guarantees

  function DispensedIds(d: Directory): seq<nat> {
    seq(|d.dispensed|, i requires 0 <= i < |d.dispensed| => d.dispensed[i].0)
  }

  /** Whatever publishes, fetches, replenishments and handshakes, hostile headers included, come
      in whatever order: no one-time prekey completes two handshakes, no id is minted twice, and
      what was dispensed since the last publish, followed by what is left, is what was published;
      if the account published it, no id was dispensed twice. */
  lemma {:induction false} OneTimePrekeysAreUsedOnce(ed: nat, dhIdentity: nat, signedPrekey: nat, kyber: nat,
                                                     drawn: seq<nat>,
                                                     relay: Inner, events: seq<Event>)
    requires ed !in relay.keys
    ensures var d := Run(Fresh(ed, dhIdentity, signedPrekey, kyber, drawn, relay), events);
            && DistinctIds(d.completed) && (forall id :: id in d.completed ==> id in d.minted)
            && DistinctIds(d.minted)
            && (d.account.ed in d.relay.keys ==> d.published == d.dispensed + d.relay.keys[d.account.ed].oneTime)
            && (d.own ==> DistinctIds(DispensedIds(d)))
  {
    FreshOk(ed, dhIdentity, signedPrekey, kyber, drawn, relay);
    RunKeeps(Fresh(ed, dhIdentity, signedPrekey, kyber, drawn, relay), events);
    var d := Run(Fresh(ed, dhIdentity, signedPrekey, kyber, drawn, relay), events);
    assert forall i :: 0 <= i < |d.dispensed| ==> d.dispensed[i] == d.published[i];
  }

  /** Whatever happened before, if the last bundle published under the account's identity is its
      own, what the relay hands out verifies, and whoever uses it shares a root key with the
      account, unless its one-time prekey has been spent meanwhile, and then the account refuses. */
  lemma {:induction false} FetchedBundlesWork(ed: nat, dhIdentity: nat, signedPrekey: nat, kyber: nat,
                                              drawn: seq<nat>, relay: Inner, events: seq<Event>,
                                              alice: AccountState, ephemeral: nat, coins: nat)
    requires ed !in relay.keys && Run(Fresh(ed, dhIdentity, signedPrekey, kyber, drawn, relay), events).own
    ensures var d := Run(Fresh(ed, dhIdentity, signedPrekey, kyber, drawn, relay), events);
            var b := Fetch(d.relay, d.account.ed).1;
            b.Some? && WorksFor(d.account, b.value, alice, ephemeral, coins)
  {
    FreshOk(ed, dhIdentity, signedPrekey, kyber, drawn, relay);
    RunKeeps(Fresh(ed, dhIdentity, signedPrekey, kyber, drawn, relay), events);
    ListedBundleWorks(Run(Fresh(ed, dhIdentity, signedPrekey, kyber, drawn, relay), events), alice, ephemeral, coins);
  }

  ghost predicate WorksFor(bob: AccountState, b: Bundle, alice: AccountState, ephemeral: nat, coins: nat) {
    var init := Initiate(alice, b, ephemeral, coins);
    && VerifyBundle(b) == Ok(())
    && Respond(bob, init.header).1 ==
       if b.oneTimePrekeyId.Some? && b.oneTimePrekeyId.value !in bob.oneTime then Err(UnknownPrekey)
       else Ok(init.root)
  }

  lemma {:induction false} ListedBundleWorks(d: Directory, alice: AccountState, ephemeral: nat, coins: nat)
    requires DirectoryOk(d) && d.own
    ensures var b := Fetch(d.relay, d.account.ed).1;
            b.Some? && WorksFor(d.account, b.value, alice, ephemeral, coins)
  {
    var pool := d.relay.keys[d.account.ed].oneTime;
    if pool == [] {
      HandshakeAgrees(alice, d.account, d.account, None, ephemeral, coins);
    } else {
      var id := pool[0].0;
      assert pool[0] in d.published by {
        assert d.published[|d.dispensed|] == pool[0];
      }
      var listed := d.account.(oneTime := d.account.oneTime[id := pool[0].1]);
      HandshakeAgrees(alice, listed, d.account, Some(pool[0]), ephemeral, coins);
      assert Fetch(d.relay, d.account.ed).1 == Some(BundleWith(listed, Some(pool[0])));
    }
  }
}
