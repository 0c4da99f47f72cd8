/**
 What an end accepts when the network delivers arbitrary headers with any ciphertext either end ever
 produced, or with junk: only what its peer encrypted, unchanged, and without a torn skip only once.
 */
module Authenticity {
  import opened Results
  import opened KeySchedule
  import opened Ratchet
  import opened CacheLimit
  import opened Conversation
  import opened KeyUse

  /** A text with everything it was sealed or opened with; `at` sealed or opened it. */
  datatype Item = Item(at: Party, header: Header, ct: Packet, prefix: Prefix, text: Bytes)

  /** Both ends, each with its calls of `aead_open`, and what was ever sealed and accepted. */
  datatype Channel = Channel(initiator: Receiver, responder: Receiver, made: seq<Item>, accepted: seq<Item>) {
    function End(who: Party): Receiver {
      if who == Initiator then initiator else responder
    }

    function WithEnd(who: Party, s: Receiver): Channel {
      if who == Initiator then this.(initiator := s) else this.(responder := s)
    }
  }

  /** The ciphertext is one of the ends' own or junk; if `calm`, the call tears no skip. */
  ghost predicate Possible(c: Channel, a: Action, calm: bool) {
    a.Open? ==>
      && (a.ct.Junk? || exists i :: 0 <= i < |c.made| && c.made[i].ct == a.ct)
      && (calm ==> !WouldTear(c.End(a.who).r, a.header))
  }

  function Happen(c: Channel, a: Action): Channel {
    match a
    case Seal(who, text, prefix) =>
      var enc := Encrypt(c.End(who).r, text, prefix);
      var next := c.WithEnd(who, Receive(c.End(who), Outgoing(text, prefix)));
      if enc.result.Err? then next
      else next.(made := c.made + [Item(who, enc.result.value.0, enc.result.value.1, prefix, text)])
    case Open(who, header, ct, prefix, drawn) =>
      var att := Decrypt(c.End(who).r, header, ct, prefix, drawn);
      var next := c.WithEnd(who, Receive(c.End(who), Incoming(header, ct, prefix, drawn)));
      if att.result.Err? then next
      else next.(accepted := c.accepted + [Item(who, header, ct, prefix, att.result.value)])
  }

  ghost predicate Happens(c: Channel, actions: seq<Action>, calm: bool, last: Channel)
    decreases |actions|
  {
    if actions == [] then c == last
    else Possible(c, actions[0], calm) && Happens(Happen(c, actions[0]), actions[1..], calm, last)
  }

  // ------------------------------------------------------------------ whose keys an end tries

  /** The keys `who` may try come from chains of the peer's parity. */
  ghost predicate PeersKeys(r: State, who: Party) {
    && Depth(r.rootKey) % 2 == Parity(who)
    && (r.chainRecv.Some? ==> Depth(r.chainRecv.value) % 2 != Parity(who))
    && forall s: Slot :: s in r.skipped ==> Depth(r.skipped[s]) % 2 != Parity(who)
  }

  lemma {:induction false} LoopPeers(skipped: map<Slot, Key>, remote: nat, ck: Key, n: nat, until: nat, p: nat)
    requires n <= until && Depth(ck) % 2 != p && forall s: Slot :: s in skipped ==> Depth(skipped[s]) % 2 != p
    ensures var loop := SkipLoop(skipped, remote, ck, n, until);
            Depth(loop.ck) % 2 != p && forall s: Slot :: s in loop.skipped ==> Depth(loop.skipped[s]) % 2 != p
    decreases until - n
  {
    if n < until && |skipped| < MAX_SKIPPED_CACHE {
      LoopPeers(skipped[(remote, n) := MessageKey(ck)], remote, NextChain(ck), n + 1, until, p);
    }
  }

  lemma {:induction false} SkipPeers(r: State, until: nat, who: Party)
    requires PeersKeys(r, who)
    ensures PeersKeys(SkipMessageKeys(r, until).after, who)
  {
    if r.chainRecv.Some? && r.dhRemote.Some? && r.nRecv <= until {
      LoopPeers(r.skipped, r.dhRemote.value, r.chainRecv.value, r.nRecv, until, Parity(who));
    }
  }

  lemma {:induction false} RatchetPeers(r: State, remotePub: nat, drawn: nat, who: Party)
    requires PeersKeys(r, who)
    ensures PeersKeys(DhRatchet(r, remotePub, drawn), who)
  {
    DhRatchetSending(r, remotePub, drawn);
    assert Depth(Chain(r.rootKey, Dh(r.dhSelf, remotePub))) == Depth(r.rootKey) + 1;
  }

  lemma {:induction false} AlignPeers(r: State, header: Header, drawn: nat, who: Party)
    requires PeersKeys(r, who)
    ensures PeersKeys(Align(r, header, drawn).after, who)
  {
    hide SkipMessageKeys, PeersKeys;
    if r.dhRemote != Some(header.dhPub) {
      SkipPeers(r, header.pn, who);
      RatchetPeers(SkipMessageKeys(r, header.pn).after, header.dhPub, drawn, who);
    }
    SkipPeers(FollowHeader(r, header, drawn).after, header.n, who);
  }

  lemma {:induction false} OpenPeers(r: State, header: Header, ct: Packet, prefix: Prefix, drawn: nat, who: Party)
    requires PeersKeys(r, who)
    ensures var att := Decrypt(r, header, ct, prefix, drawn);
            && PeersKeys(att.after, who)
            && (att.key.Some? ==> Depth(att.key.value) % 2 != Parity(who))
            && (att.result.Ok? ==>
                  att.key.Some? && ct == AeadSeal(att.key.value, att.result.value, AssociatedData(prefix, header)))
  {
    AlignPeers(r, header, drawn, who);
    hide Align;
  }

  // ------------------------------------------------------------------ the invariant

  /** `made` is sealed under a key of its maker's parity, for its header and prefix. */
  ghost predicate MadeOk(m: Item) {
    exists k: Key :: m.ct == AeadSeal(k, m.text, AssociatedData(m.prefix, m.header)) && Depth(k) % 2 == Parity(m.at)
  }

  /** The peer made exactly what `a` records as accepted. */
  ghost predicate FromPeer(a: Item, made: seq<Item>) {
    a.(at := Peer(a.at)) in made
  }

  ghost predicate ChannelOk(c: Channel) {
    && SendingOk(c.initiator.r, Initiator) && PeersKeys(c.initiator.r, Initiator)
    && SendingOk(c.responder.r, Responder) && PeersKeys(c.responder.r, Responder)
    && (forall m :: m in c.made ==> MadeOk(m))
    && (forall a :: a in c.accepted ==> FromPeer(a, c.made))
  }

  lemma {:induction false} SealKeeps(c: Channel, who: Party, text: Bytes, prefix: Prefix)
    requires ChannelOk(c)
    ensures ChannelOk(Happen(c, Seal(who, text, prefix)))
  {
    var r := c.End(who).r;
    if r.chainSend.Some? {
      var header := Header(r.dhSelf, r.pn, r.nSend);
      var k := MessageKey(r.chainSend.value);
      var made := Item(who, header, AeadSeal(k, text, AssociatedData(prefix, header)), prefix, text);
      assert MadeOk(made);
      assert Happen(c, Seal(who, text, prefix)).made == c.made + [made];
    }
  }

  /** A ciphertext of the ends' own that opens is one its peer made, for the same header and prefix. */
  lemma {:induction false} OpenedIsPeers(made: seq<Item>, a: Item, k: Key)
    requires forall m :: m in made ==> MadeOk(m)
    requires a.ct.Junk? || exists i :: 0 <= i < |made| && made[i].ct == a.ct
    requires a.ct == AeadSeal(k, a.text, AssociatedData(a.prefix, a.header)) && Depth(k) % 2 != Parity(a.at)
    ensures FromPeer(a, made)
  {
    var i :| 0 <= i < |made| && made[i].ct == a.ct;
    assert MadeOk(made[i]);
    assert made[i] == a.(at := Peer(a.at));
  }

  lemma {:induction false} OpenKeeps(c: Channel, who: Party, header: Header, ct: Packet, prefix: Prefix, drawn: nat)
    requires ChannelOk(c) && Possible(c, Open(who, header, ct, prefix, drawn), false)
    ensures ChannelOk(Happen(c, Open(who, header, ct, prefix, drawn)))
  {
    var r := c.End(who).r;
    DecryptAndSending(r, header, ct, prefix, drawn);
    OpenPeers(r, header, ct, prefix, drawn, who);
    hide Decrypt, PeersKeys, MadeOk, FromPeer;
    var att := Decrypt(r, header, ct, prefix, drawn);
    if att.result.Ok? {
      OpenedIsPeers(c.made, Item(who, header, ct, prefix, att.result.value), att.key.value);
    }
  }

  lemma {:induction false} HappensKeeps(c: Channel, actions: seq<Action>, calm: bool, last: Channel)
    requires ChannelOk(c) && Happens(c, actions, calm, last)
    ensures ChannelOk(last)
    decreases |actions|
  {
    if actions != [] {
      match actions[0] {
        case Seal(who, text, prefix) => SealKeeps(c, who, text, prefix);
        case Open(who, header, ct, prefix, drawn) => OpenKeeps(c, who, header, ct, prefix, drawn);
      }
      hide ChannelOk;
      HappensKeeps(Happen(c, actions[0]), actions[1..], calm, last);
    }
  }

  // ------------------------------------------------------------------ at most once

  /** What was accepted was opened with a key tried at that end, different from all others there. */
  ghost predicate OnceOk(c: Channel) {
    && OpenInv(c.initiator) && OpenInv(c.responder)
    && (forall a :: a in c.accepted ==>
          a.ct.Sealed? && exists k :: k in Used(c.End(a.at).calls) && a.ct.material == MessageMaterial(k))
    && (forall i, j :: 0 <= i < j < |c.accepted| && c.accepted[i].at == c.accepted[j].at ==>
          c.accepted[i].ct != c.accepted[j].ct)
  }
  lemma {:induction false} SealKeepsOnce(c: Channel, who: Party, text: Bytes, prefix: Prefix)
    requires OnceOk(c)
    ensures OnceOk(Happen(c, Seal(who, text, prefix)))
  {
    hide Encrypt, OpenInv;
    var next := Receive(c.End(who), Outgoing(text, prefix));
    ReceiveKeepsOpenInv(c.End(who), Outgoing(text, prefix));
    assert next.calls == c.End(who).calls;
    EndKeepsOnce(c, who, next);
    assert OnceOk(c.WithEnd(who, next));
  }

  /** More tried keys at one end do no harm to what was accepted before. */
  lemma {:induction false} EndKeepsOnce(c: Channel, who: Party, next: Receiver)
    requires OnceOk(c) && OpenInv(next) && Used(c.End(who).calls) <= Used(next.calls)
    ensures OnceOk(c.WithEnd(who, next))
  {
    hide OpenInv, Used;
    var after := c.WithEnd(who, next);
    forall a | a in c.accepted
      ensures exists k :: k in Used(after.End(a.at).calls) && a.ct.material == MessageMaterial(k)
    {
      var k :| k in Used(c.End(a.at).calls) && a.ct.material == MessageMaterial(k);
      assert k in Used(after.End(a.at).calls);
    }
  }

  lemma {:induction false} OpenKeepsOnce(c: Channel, who: Party, header: Header, ct: Packet, prefix: Prefix, drawn: nat)
    requires OnceOk(c) && !WouldTear(c.End(who).r, header)
    ensures OnceOk(Happen(c, Open(who, header, ct, prefix, drawn)))
  {
    hide Decrypt, WouldTear, ReceivingOk;
    var s, x := c.End(who), Incoming(header, ct, prefix, drawn);
    var att := Decrypt(s.r, header, ct, prefix, drawn);
    TearsExactly(s.r, header, ct, prefix, drawn);
    IncomingKeepsReceiving(s.r, header, ct, prefix, drawn, Used(s.calls));
    ReceiveKeepsOpenInv(s, x);
    hide OpenInv, Used;
    var next := Receive(s, x);
    if att.key.Some? {
      UsedGrows(s.calls, Call(att.key.value, ct, att.result.Ok?));
    } else {
      assert next.calls == s.calls;
    }
    EndKeepsOnce(c, who, next);
    if att.result.Ok? {
      AcceptKeepsOnce(c, who, next, Item(who, header, ct, prefix, att.result.value), att.key.value);
    }
  }

  lemma {:induction false} AcceptKeepsOnce(c: Channel, who: Party, next: Receiver, a: Item, k: Key)
    requires OnceOk(c) && OnceOk(c.WithEnd(who, next)) && a.at == who
    requires a.ct.Sealed? && a.ct.material == MessageMaterial(k)
    requires k !in Used(c.End(who).calls) && k in Used(next.calls)
    ensures OnceOk(c.WithEnd(who, next).(accepted := c.accepted + [a]))
  {
    hide OpenInv, Used;
    forall i | 0 <= i < |c.accepted| && c.accepted[i].at == who
      ensures c.accepted[i].ct != a.ct
    {
      assert c.accepted[i] in c.accepted;
    }
  }

  lemma {:induction false} HappensOnce(c: Channel, actions: seq<Action>, last: Channel)
    requires OnceOk(c) && Happens(c, actions, true, last)
    ensures OnceOk(last)
    decreases |actions|
  {
    hide OnceOk;
    if actions != [] {
      match actions[0] {
        case Seal(who, text, prefix) => SealKeepsOnce(c, who, text, prefix);
        case Open(who, header, ct, prefix, drawn) => OpenKeepsOnce(c, who, header, ct, prefix, drawn);
      }
      HappensOnce(Happen(c, actions[0]), actions[1..], last);
    }
  }

  // ------------------------------------------------------------------ what every run guarantees

  /** Both ends as the handshake leaves them, in agreement or not. */
  function Fresh(seedI: seq<Ikm>, seedR: seq<Ikm>, remotePub: nat, ephemeral: nat, signedPrekey: nat): Channel {
    Channel(Receiver(InitInitiator(Seed(seedI), remotePub, ephemeral), []),
            Receiver(InitResponder(Seed(seedR), signedPrekey), []), [], [])
  }

  lemma {:induction false} FreshOk(seedI: seq<Ikm>, seedR: seq<Ikm>, remotePub: nat, ephemeral: nat, signedPrekey: nat)
    ensures ChannelOk(Fresh(seedI, seedR, remotePub, ephemeral, signedPrekey))
    ensures OnceOk(Fresh(seedI, seedR, remotePub, ephemeral, signedPrekey))
  {
    var root := Seed(seedI);
    assert Depth(root) == 0 && Depth(Seed(seedR)) == 0;
    assert Depth(Root(root, Dh(ephemeral, remotePub))) == Depth(root) + 1;
    assert Depth(Chain(root, Dh(ephemeral, remotePub))) == Depth(root) + 1;
  }

  /** Whatever the network does with headers, prefixes and the ends' own ciphertexts, every accepted text
      is one the peer encrypted under exactly that header and prefix; and if no call meets the tearing
      condition, no two acceptances, at either end, are of the same ciphertext. */
  lemma {:induction false} AcceptedIsAuthentic(seedI: seq<Ikm>, seedR: seq<Ikm>, remotePub: nat, ephemeral: nat,
                                               signedPrekey: nat, actions: seq<Action>, calm: bool, c: Channel)
    requires Happens(Fresh(seedI, seedR, remotePub, ephemeral, signedPrekey), actions, calm, c)
    ensures forall a :: a in c.accepted ==> a.(at := Peer(a.at)) in c.made
    ensures calm ==> forall i, j :: 0 <= i < j < |c.accepted| ==> c.accepted[i].ct != c.accepted[j].ct
  {
    hide OnceOk, Happens;
    FreshOk(seedI, seedR, remotePub, ephemeral, signedPrekey);
    HappensKeeps(Fresh(seedI, seedR, remotePub, ephemeral, signedPrekey), actions, calm, c);
    assert forall a :: a in c.accepted ==> FromPeer(a, c.made);
    if calm {
      HappensOnce(Fresh(seedI, seedR, remotePub, ephemeral, signedPrekey), actions, c);
      OnceAtEither(c);
    }
  }

  lemma {:induction false} OnceAtEither(c: Channel)
    requires ChannelOk(c) && OnceOk(c)
    ensures forall i, j :: 0 <= i < j < |c.accepted| ==> c.accepted[i].ct != c.accepted[j].ct
  {
    forall i, j | 0 <= i < j < |c.accepted|
      ensures c.accepted[i].ct != c.accepted[j].ct
    {
      var a, b := c.accepted[i], c.accepted[j];
      if a.at != b.at {
        assert FromPeer(a, c.made) && FromPeer(b, c.made);
        assert MadeOk(a.(at := Peer(a.at))) && MadeOk(b.(at := Peer(b.at)));
      }
    }
  }
}
