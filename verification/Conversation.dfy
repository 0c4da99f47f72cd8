/**
 Two Double Ratchet ends over a network that reorders and drops messages. A run is any sequence
 of encryptions and deliveries in which each message is decrypted at most once and no delivery
 would take the cache-full return part-way through a skip.
 */
module Conversation {
  import opened Results
  import opened KeySchedule
  import opened Ratchet
  import opened CacheLimit

  datatype Party = Initiator | Responder

  function Peer(who: Party): Party {
    if who == Initiator then Responder else Initiator
  }

  /** A message as its sender produced it, with the plaintext for reference. */
  datatype Sent = Sent(from: Party, header: Header, ct: Packet, text: Bytes) {
    function Slot(): Slot { (header.dhPub, header.n) }
  }

  /** Both ends, everything ever sent, and which of it has been decrypted successfully. */
  datatype Conv = Conv(
    initiator: State,
    responder: State,
    prefix: Prefix,
    nextSecret: nat,
    sent: seq<Sent>,
    decrypted: set<nat>)
  {
    function End(who: Party): State {
      if who == Initiator then initiator else responder
    }

    function WithEnd(who: Party, r: State): Conv {
      if who == Initiator then this.(initiator := r) else this.(responder := r)
    }
  }

  /** Both ends right after the handshake; the initiator draws its first ratchet key. */
  function Start(root: Key, signedPrekey: nat, prefix: Prefix, nextSecret: nat): Conv {
    Conv(InitInitiator(root, signedPrekey, nextSecret), InitResponder(root, signedPrekey),
         prefix, nextSecret + 1, [], {})
  }

  datatype Event = Write(who: Party, text: Bytes) | Deliver(packet: nat)

  function Attempted(c: Conv, packet: nat): Attempt
    requires packet < |c.sent|
  {
    var m := c.sent[packet];
    Decrypt(c.End(Peer(m.from)), m.header, m.ct, c.prefix, c.nextSecret)
  }

  /** The checks `decrypt` makes on an honest header: every gap it must skip is within bounds
      and the keys passed over fit the cache. */
  predicate WithinLimits(r: State, header: Header) {
    if (header.dhPub, header.n) in r.skipped then true
    else if r.dhRemote == Some(header.dhPub) then
      && header.n - r.nRecv <= MAX_SKIP
      && |r.skipped| + header.n - r.nRecv <= MAX_SKIPPED_CACHE
    else
      var rest := if r.chainRecv.Some? then header.pn - r.nRecv else 0;
      && rest <= MAX_SKIP && header.n <= MAX_SKIP
      && |r.skipped| + rest + header.n <= MAX_SKIPPED_CACHE
  }

  predicate Allowed(c: Conv, e: Event) {
    match e
    case Write(_, _) => true
    case Deliver(j) =>
      j < |c.sent| && j !in c.decrypted && !WouldTear(c.End(Peer(c.sent[j].from)), c.sent[j].header)
  }

  function Step(c: Conv, e: Event): Conv
    requires Allowed(c, e)
  {
    match e
    case Write(who, text) =>
      var enc := Encrypt(c.End(who), text, c.prefix);
      var next := c.WithEnd(who, enc.after);
      if enc.result.Ok? then
        next.(sent := c.sent + [Sent(who, enc.result.value.0, enc.result.value.1, text)])
      else next
    case Deliver(j) =>
      var att := Attempted(c, j);
      c.WithEnd(Peer(c.sent[j].from), att.after)
      .(nextSecret := c.nextSecret + 1, decrypted := if att.result.Ok? then c.decrypted + {j} else c.decrypted)
  }

  /** The run `events` from `c`, every step of it allowed, ends in `last`. */
  ghost predicate Run(c: Conv, events: seq<Event>, last: Conv)
    decreases |events|
  {
    if events == [] then c == last
    else Allowed(c, events[0]) && Run(Step(c, events[0]), events[1..], last)
  }

  // ------------------------------------------------------------------ history

  /**
   The history behind a conversation. Ratchet keys alternate between the ends: `keys[0]` is the
   responder's signed prekey, odd entries the initiator's keys, even ones the responder's. Chain
   `k` is sent under `keys[k]`; `count[k]` messages have been. `at` gives each sent message's
   chain; the ends stand at positions `initiator` and `responder`.
   */
  datatype History = History(
    root: Key, keys: seq<nat>, count: seq<nat>, at: seq<nat>, initiator: nat, responder: nat)
  {
    function Position(who: Party): nat {
      if who == Initiator then initiator else responder
    }

    function Move(who: Party, p: nat): History {
      if who == Initiator then this.(initiator := p) else this.(responder := p)
    }

    /** The next chain opens, under a freshly drawn key. */
    function Grow(drawn: nat): History {
      this.(keys := keys + [drawn], count := count + [0])
    }
  }

  function RootAt(root: Key, keys: seq<nat>, k: nat): Key
    requires k < |keys|
  {
    if k == 0 then root else Root(RootAt(root, keys, k - 1), Dh(keys[k - 1], keys[k]))
  }

  function ChainAt(root: Key, keys: seq<nat>, k: nat): Key
    requires 0 < k < |keys|
  {
    Chain(RootAt(root, keys, k - 1), Dh(keys[k - 1], keys[k]))
  }

  /** The message key of number `i` in chain `k`. */
  function MkAt(h: History, k: nat, i: nat): Key
    requires 0 < k < |h.keys|
  {
    MessageKey(Advance(ChainAt(h.root, h.keys, k), i))
  }

  /** The length of the sender's previous chain, which chain `k`'s headers announce. */
  function PnAt(h: History, k: nat): nat
    requires k < |h.count|
  {
    if k < 2 then 0 else h.count[k - 2]
  }

  /** The end at position `p` has followed chain `k`. */
  predicate Follows(p: nat, k: nat) {
    0 < k < p && k % 2 != p % 2
  }

  /** How far the end at position `p` has advanced in a chain it follows. */
  function Reached(r: State, h: History, p: nat, k: nat): nat
    requires k < |h.count|
  {
    if k + 1 == p then r.nRecv else h.count[k]
  }

  ghost predicate Distinct(keys: seq<nat>) {
    forall i, j :: 0 <= i < j < |keys| ==> keys[i] != keys[j]
  }

  ghost predicate WellFormed(h: History) {
    && |h.keys| == |h.count| && h.count != [] && h.count[0] == 0
    && h.initiator % 2 == 1 && h.responder % 2 == 0
    && (h.initiator == h.responder + 1 || h.responder == h.initiator + 1)
    && |h.keys| == 1 + (if h.initiator > h.responder then h.initiator else h.responder)
    && Distinct(h.keys)
  }

  /** Roots, chains and counters of the end at position `p`. */
  ghost predicate KeysOk(r: State, h: History, p: nat)
    requires |h.keys| == |h.count| && p < |h.keys|
  {
    && r.dhSelf == h.keys[p]
    && r.rootKey == RootAt(h.root, h.keys, p)
    && r.nSend == h.count[p] && r.pn == PnAt(h, p)
    && r.dhRemote == (if p == 0 then None else Some(h.keys[p - 1]))
    && r.chainSend == (if p == 0 then None else Some(Advance(ChainAt(h.root, h.keys, p), r.nSend)))
    && r.chainRecv == (if p < 2 then None else Some(Advance(ChainAt(h.root, h.keys, p - 1), r.nRecv)))
    && r.nRecv <= (if p == 0 then 0 else h.count[p - 1])
  }

  /** In each followed chain the numbers reached are exactly those cached or decrypted. */
  ghost predicate CacheOk(r: State, h: History, p: nat, done: set<Slot>)
    requires |h.keys| == |h.count|
  {
    && |r.skipped| <= MAX_SKIPPED_CACHE
    && (forall x: nat, i: nat :: (x, i) in r.skipped ==> x in h.keys)
    && (forall k: nat, i: nat :: k < |h.keys| ==>
          ((h.keys[k], i) in r.skipped <==>
             Follows(p, k) && i < Reached(r, h, p, k) && (h.keys[k], i) !in done))
    && (forall k: nat, i: nat :: k < |h.keys| && (h.keys[k], i) in r.skipped ==>
          Follows(p, k) && r.skipped[(h.keys[k], i)] == MkAt(h, k, i))
    && (forall k: nat, i: nat :: k < |h.keys| && k % 2 != p % 2 && (h.keys[k], i) in done ==>
          Follows(p, k) && i < Reached(r, h, p, k))
  }

  ghost predicate EndOk(r: State, h: History, p: nat, done: set<Slot>)
    requires |h.keys| == |h.count|
  {
    p < |h.keys| && KeysOk(r, h, p) && CacheOk(r, h, p, done)
  }

  /** Message `j` of `sent` is number `header.n` of its chain and sealed with that key. */
  ghost predicate SentOk(c: Conv, h: History, j: nat)
    requires j < |c.sent| == |h.at| && |h.keys| == |h.count|
  {
    var m, k := c.sent[j], h.at[j];
    && 0 < k < |h.keys|
    && m.from == (if k % 2 == 1 then Initiator else Responder)
    && m.header == Header(h.keys[k], PnAt(h, k), m.header.n)
    && m.header.n < h.count[k]
    && m.ct == AeadSeal(MkAt(h, k, m.header.n), m.text, AssociatedData(c.prefix, m.header))
  }

  function Done(c: Conv): set<Slot> {
    set j | j in c.decrypted && j < |c.sent| :: c.sent[j].Slot()
  }

  /** Every message sent fits the history, no two share a slot. */
  ghost predicate TrafficOk(c: Conv, h: History)
    requires |h.keys| == |h.count|
  {
    && |h.at| == |c.sent|
    && (forall j: nat :: j < |c.sent| ==> SentOk(c, h, j))
    && (forall i, j :: 0 <= i < j < |c.sent| ==> c.sent[i].Slot() != c.sent[j].Slot())
    && (forall j :: j in c.decrypted ==> j < |c.sent|)
  }

  ghost predicate Inv(c: Conv, h: History) {
    && WellFormed(h)
    && (forall k :: 0 <= k < |h.keys| ==> h.keys[k] < c.nextSecret)
    && EndOk(c.initiator, h, h.initiator, Done(c))
    && EndOk(c.responder, h, h.responder, Done(c))
    && TrafficOk(c, h)
  }

  // ------------------------------------------------------------------ growth of the history

  lemma {:induction false} RootAtPrefix(root: Key, keys: seq<nat>, more: seq<nat>, k: nat)
    requires k < |keys|
    ensures RootAt(root, keys + more, k) == RootAt(root, keys, k)
  {
    if k > 0 {
      RootAtPrefix(root, keys, more, k - 1);
    }
  }

  lemma {:induction false} GrowKeepsChains(h: History, drawn: nat)
    ensures forall k: nat :: k < |h.keys| ==> RootAt(h.root, h.Grow(drawn).keys, k) == RootAt(h.root, h.keys, k)
    ensures forall k: nat :: 0 < k < |h.keys| ==> ChainAt(h.root, h.Grow(drawn).keys, k) == ChainAt(h.root, h.keys, k)
    ensures forall k: nat, i: nat :: 0 < k < |h.keys| ==> MkAt(h.Grow(drawn), k, i) == MkAt(h, k, i)
  {
    forall k: nat | k < |h.keys|
      ensures RootAt(h.root, h.Grow(drawn).keys, k) == RootAt(h.root, h.keys, k)
    {
      RootAtPrefix(h.root, h.keys, [drawn], k);
    }
  }

  lemma {:induction false} GrowKeepsEnd(r: State, h: History, p: nat, done: set<Slot>, drawn: nat)
    requires |h.keys| == |h.count| && EndOk(r, h, p, done)
    requires drawn !in h.keys
    requires forall i: nat :: (drawn, i) !in done
    ensures EndOk(r, h.Grow(drawn), p, done)
  {
    GrowKeepsChains(h, drawn);
    var g := h.Grow(drawn);
    assert forall k: nat :: k < |h.keys| ==> g.keys[k] == h.keys[k] && g.count[k] == h.count[k];
    assert g.keys[|h.keys|] == drawn;
  }

  // ------------------------------------------------------------------ the receiving end

  /** A skip to a number the sender has reached completes exactly when the gap and the cache
      allow it, and then leaves the end in order; a refused skip changes nothing. */
  lemma {:induction false} SkipInChain(r: State, h: History, p: nat, done: set<Slot>, until: nat)
    requires |h.keys| == |h.count| && EndOk(r, h, p, done) && 2 <= p
    requires Distinct(h.keys)
    requires r.nRecv <= until <= h.count[p - 1]
    ensures var skip := SkipMessageKeys(r, until);
            && (skip.ending == Completed <==>
                  until - r.nRecv <= MAX_SKIP && |r.skipped| + (until - r.nRecv) <= MAX_SKIPPED_CACHE)
            && (skip.ending == Refused ==> skip.after == r)
            && (skip.ending == Completed ==>
                  && skip.after == r.(skipped := skip.after.skipped, chainRecv := skip.after.chainRecv, nRecv := until)
                  && |skip.after.skipped| == |r.skipped| + (until - r.nRecv)
                  && EndOk(skip.after, h, p, done))
  {
    var remote := h.keys[p - 1];
    var base := ChainAt(h.root, h.keys, p - 1);
    assert forall i: nat :: r.nRecv <= i ==> (remote, i) !in r.skipped;
    if until - r.nRecv <= MAX_SKIP {
      if |r.skipped| + (until - r.nRecv) <= MAX_SKIPPED_CACHE {
        SkipLoopWithRoom(r.skipped, remote, base, r.nRecv, until);
        SkipKeepsCache(r, h, p, done, until);
      } else {
        SkipLoopWithoutRoom(r.skipped, remote, r.chainRecv.value, r.nRecv, until);
      }
    }
  }

  lemma {:induction false} SkipKeepsCache(r: State, h: History, p: nat, done: set<Slot>, until: nat)
    requires |h.keys| == |h.count| && EndOk(r, h, p, done) && 2 <= p
    requires Distinct(h.keys)
    requires r.nRecv <= until <= h.count[p - 1]
    requires var after := SkipMessageKeys(r, until).after;
             && after == r.(skipped := after.skipped, chainRecv := after.chainRecv, nRecv := until)
             && |after.skipped| <= MAX_SKIPPED_CACHE
             && Filled(r.skipped, after.skipped, h.keys[p - 1], ChainAt(h.root, h.keys, p - 1), r.nRecv, until)
    ensures CacheOk(SkipMessageKeys(r, until).after, h, p, done)
  {
    var after := SkipMessageKeys(r, until).after;
    forall k: nat, i: nat | k < |h.keys|
      ensures (h.keys[k], i) in after.skipped <==>
                Follows(p, k) && i < Reached(after, h, p, k) && (h.keys[k], i) !in done
      ensures (h.keys[k], i) in after.skipped ==>
                Follows(p, k) && after.skipped[(h.keys[k], i)] == MkAt(h, k, i)
    {
      assert (h.keys[k], i) in r.skipped <==>
               Follows(p, k) && i < Reached(r, h, p, k) && (h.keys[k], i) !in done;
      assert h.keys[k] == h.keys[p - 1] <==> k == p - 1;
    }
  }

  /** Having reached the end of its current chain, the end at `p` ratchets to the peer's next
      key and stands two positions further on, where the peer will find it. */
  lemma {:induction false} RatchetInStep(r: State, h: History, p: nat, done: set<Slot>, drawn: nat)
    requires |h.keys| == |h.count| == p + 2 && EndOk(r, h, p, done)
    requires r.nRecv == if p == 0 then 0 else h.count[p - 1]
    requires drawn !in h.keys
    requires forall i: nat :: (drawn, i) !in done
    ensures var after := DhRatchet(r, h.keys[p + 1], drawn);
            && EndOk(after, h.Grow(drawn), p + 2, done)
            && after.nRecv == 0 && after.skipped == r.skipped
  {
    RatchetKeys(r, h, p, drawn);
    GrowKeepsEnd(r, h, p, done, drawn);
    assert h.Grow(drawn).keys[p + 1] == h.keys[p + 1];
    RatchetCache(r, h.Grow(drawn), p, done, drawn);
  }

  lemma {:induction false} RatchetKeys(r: State, h: History, p: nat, drawn: nat)
    requires |h.keys| == |h.count| == p + 2 && KeysOk(r, h, p)
    ensures KeysOk(DhRatchet(r, h.keys[p + 1], drawn), h.Grow(drawn), p + 2)
  {
    var g := h.Grow(drawn);
    GrowKeepsChains(h, drawn);
    assert RootAt(g.root, g.keys, p) == r.rootKey;
    assert RootAt(g.root, g.keys, p + 1) == Root(r.rootKey, Dh(r.dhSelf, h.keys[p + 1]));
    assert ChainAt(g.root, g.keys, p + 1) == Chain(r.rootKey, Dh(r.dhSelf, h.keys[p + 1]));
    assert RootAt(g.root, g.keys, p + 2) == Root(RootAt(g.root, g.keys, p + 1), Dh(h.keys[p + 1], drawn));
  }

  lemma {:induction false} RatchetCache(r: State, g: History, p: nat, done: set<Slot>, drawn: nat)
    requires |g.keys| == |g.count| == p + 3 && CacheOk(r, g, p, done)
    requires r.nRecv == if p == 0 then 0 else g.count[p - 1]
    ensures CacheOk(DhRatchet(r, g.keys[p + 1], drawn), g, p + 2, done)
  {
    var after := DhRatchet(r, g.keys[p + 1], drawn);
    forall k: nat, i: nat | k < |g.keys|
      ensures (g.keys[k], i) in after.skipped <==>
                Follows(p + 2, k) && i < Reached(after, g, p + 2, k) && (g.keys[k], i) !in done
      ensures (g.keys[k], i) in after.skipped ==> Follows(p + 2, k)
    {
      RatchetReach(r, after, g, p, k, i);
    }
    forall k: nat, i: nat | k < |g.keys| && k % 2 != (p + 2) % 2 && (g.keys[k], i) in done
      ensures Follows(p + 2, k) && i < Reached(after, g, p + 2, k)
    {
      RatchetReach(r, after, g, p, k, i);
    }
  }

  /** Ratcheting does not change which numbers of which chains have been reached. */
  lemma {:induction false} RatchetReach(r: State, after: State, g: History, p: nat, k: nat, i: nat)
    requires k < |g.count| == p + 3
    requires r.nRecv == (if p == 0 then 0 else g.count[p - 1]) && after.nRecv == 0
    ensures Follows(p + 2, k) && i < Reached(after, g, p + 2, k) <==> Follows(p, k) && i < Reached(r, g, p, k)
  {
  }

  /** Opening the next message of the current chain keeps the end in order. */
  lemma {:induction false} OpenNext(r: State, h: History, p: nat, done: set<Slot>)
    requires |h.keys| == |h.count| && EndOk(r, h, p, done) && 2 <= p
    requires Distinct(h.keys)
    requires r.nRecv < h.count[p - 1]
    ensures EndOk(Opened(r), h, p, done + {(h.keys[p - 1], r.nRecv)})
  {
    var after := Opened(r);
    var done' := done + {(h.keys[p - 1], r.nRecv)};
    forall k: nat, i: nat | k < |h.keys|
      ensures (h.keys[k], i) in after.skipped <==>
                Follows(p, k) && i < Reached(after, h, p, k) && (h.keys[k], i) !in done'
    {
      assert h.keys[k] == h.keys[p - 1] <==> k == p - 1;
    }
  }

  /** Opening a cached message empties its slot and keeps the end in order. */
  lemma {:induction false} OpenCached(r: State, h: History, p: nat, done: set<Slot>, slot: Slot)
    requires |h.keys| == |h.count| && EndOk(r, h, p, done)
    requires slot in r.skipped
    ensures EndOk(r.(skipped := r.skipped - {slot}), h, p, done + {slot})
  {
    assert (r.skipped - {slot}).Keys == r.skipped.Keys - {slot};
    assert |r.skipped - {slot}| == |(r.skipped - {slot}).Keys|;
  }

  function HeaderAt(h: History, k: nat, i: nat): Header
    requires k < |h.keys| == |h.count|
  {
    Header(h.keys[k], PnAt(h, k), i)
  }

  /** Message `i` of the chain the end currently receives, not reached yet: skip, then open. */
  lemma {:induction false} OpenAhead(r: State, h: History, p: nat, done: set<Slot>, i: nat)
    requires |h.keys| == |h.count| && EndOk(r, h, p, done) && 2 <= p && Distinct(h.keys)
    requires r.nRecv <= i < h.count[p - 1]
    ensures var skip := SkipMessageKeys(r, i);
            && (skip.ending == Completed <==>
                  i - r.nRecv <= MAX_SKIP && |r.skipped| + (i - r.nRecv) <= MAX_SKIPPED_CACHE)
            && (skip.ending == Refused ==> skip.after == r)
            && (skip.ending == Completed ==>
                  && skip.after.chainRecv.Some?
                  && MessageKey(skip.after.chainRecv.value) == MkAt(h, p - 1, i)
                  && EndOk(Opened(skip.after), h, p, done + {(h.keys[p - 1], i)}))
  {
    SkipInChain(r, h, p, done, i);
    var skip := SkipMessageKeys(r, i);
    if skip.ending == Completed {
      OpenNext(skip.after, h, p, done);
    }
  }

  /** What one delivery does to the receiving end, whatever was delivered before it. */
  lemma {:induction false} DeliverTo(r: State, h: History, p: nat, done: set<Slot>, k: nat, i: nat, text: Bytes,
                                     prefix: Prefix, drawn: nat)
    returns (grew: bool)
    requires |h.keys| == |h.count| <= p + 2 && EndOk(r, h, p, done) && Distinct(h.keys)
    requires 0 < k < |h.keys| && k % 2 != p % 2 && i < h.count[k] && h.count[0] == 0
    requires (h.keys[k], i) !in done && drawn !in h.keys && forall n: nat :: (drawn, n) !in done
    ensures var header := HeaderAt(h, k, i);
            var ad := AssociatedData(prefix, header);
            var att := Decrypt(r, header, AeadSeal(MkAt(h, k, i), text, ad), prefix, drawn);
            && att.result == (if WithinLimits(r, header) then Ok(text) else Err(DecryptFailed))
            && (att.result.Ok? ==> !att.torn)
            && (grew ==> k == p + 1)
            && (!att.torn ==>
                  EndOk(att.after, if grew then h.Grow(drawn) else h, if grew then p + 2 else p,
                        if att.result.Ok? then done + {(h.keys[k], i)} else done))
  {
    var header := HeaderAt(h, k, i);
    hide EndOk, Decrypt, Align, WithinLimits;
    if (h.keys[k], i) in r.skipped {
      grew := false;
      DeliverCached(r, h, p, done, k, i, text, prefix, drawn);
    } else {
      ChainIsNext(r, h, p, done, k, i);
      if k + 1 == p {
        grew := false;
        AlignCurrent(r, h, p, done, i, drawn);
      } else {
        grew := AlignNext(r, h, p, done, i, drawn);
      }
      DeliverAligned(r, header, MkAt(h, k, i), text, prefix, drawn);
    }
  }

  /** A message neither decrypted nor cached belongs to the chain being received or to the next. */
  lemma {:induction false} ChainIsNext(r: State, h: History, p: nat, done: set<Slot>, k: nat, i: nat)
    requires |h.keys| == |h.count| <= p + 2 && EndOk(r, h, p, done)
    requires 0 < k < |h.keys| && k % 2 != p % 2 && i < h.count[k]
    requires (h.keys[k], i) !in done && (h.keys[k], i) !in r.skipped
    ensures (k + 1 == p && 2 <= p) || (k == p + 1 && |h.keys| == p + 2)
  {
  }

  lemma {:induction false} DeliverCached(r: State, h: History, p: nat, done: set<Slot>, k: nat, i: nat, text: Bytes,
                                         prefix: Prefix, drawn: nat)
    requires |h.keys| == |h.count| && EndOk(r, h, p, done) && k < |h.keys| && 0 < k
    requires (h.keys[k], i) in r.skipped
    ensures var header := HeaderAt(h, k, i);
            var att := Decrypt(r, header, AeadSeal(MkAt(h, k, i), text, AssociatedData(prefix, header)), prefix, drawn);
            && WithinLimits(r, header) && att.result == Ok(text) && !att.torn
            && EndOk(att.after, h, p, done + {(h.keys[k], i)})
  {
    var slot := (h.keys[k], i);
    assert r.skipped[slot] == MkAt(h, k, i);
    OpenCached(r, h, p, done, slot);
    hide EndOk;
  }

  /** What is left of `decrypt` once the chain is aligned. */
  lemma {:induction false} DeliverAligned(r: State, header: Header, key: Key, text: Bytes, prefix: Prefix, drawn: nat)
    requires (header.dhPub, header.n) !in r.skipped
    requires var aligned := Align(r, header, drawn);
             && (aligned.ending == Completed <==> WithinLimits(r, header))
             && (aligned.ending == Completed ==>
                   aligned.after.chainRecv.Some? && MessageKey(aligned.after.chainRecv.value) == key)
    ensures var att := Decrypt(r, header, AeadSeal(key, text, AssociatedData(prefix, header)), prefix, drawn);
            var aligned := Align(r, header, drawn);
            && att.result == (if WithinLimits(r, header) then Ok(text) else Err(DecryptFailed))
            && att.after == (if WithinLimits(r, header) then Opened(aligned.after) else aligned.after)
            && att.torn == (aligned.ending == Torn)
  {
    hide Align, WithinLimits;
  }

  /** A message of the chain the end receives, not reached yet. */
  lemma {:induction false} AlignCurrent(r: State, h: History, p: nat, done: set<Slot>, i: nat, drawn: nat)
    requires |h.keys| == |h.count| && EndOk(r, h, p, done) && Distinct(h.keys) && 2 <= p
    requires i < h.count[p - 1] && (h.keys[p - 1], i) !in done && (h.keys[p - 1], i) !in r.skipped
    ensures var skip := Align(r, HeaderAt(h, p - 1, i), drawn);
            && (skip.ending == Completed <==> WithinLimits(r, HeaderAt(h, p - 1, i)))
            && (skip.ending == Completed ==>
                  && skip.after.chainRecv.Some?
                  && MessageKey(skip.after.chainRecv.value) == MkAt(h, p - 1, i)
                  && EndOk(Opened(skip.after), h, p, done + {(h.keys[p - 1], i)}))
            && (skip.ending == Refused ==> EndOk(skip.after, h, p, done))
  {
    OpenAhead(r, h, p, done, i);
    assert Align(r, HeaderAt(h, p - 1, i), drawn) == SkipMessageKeys(r, i);
  }

  function Opened(r: State): State
    requires r.chainRecv.Some?
  {
    r.(chainRecv := Some(NextChain(r.chainRecv.value)), nRecv := r.nRecv + 1)
  }

  /** The first message to arrive of the chain after the one the end receives: finish the old
      chain, ratchet, and skip within the new one. */
  lemma {:induction false} AlignNext(r: State, h: History, p: nat, done: set<Slot>, i: nat, drawn: nat)
    returns (grew: bool)
    requires |h.keys| == |h.count| == p + 2 && EndOk(r, h, p, done) && Distinct(h.keys)
    requires i < h.count[p + 1] && h.count[0] == 0
    requires drawn !in h.keys && forall n: nat :: (drawn, n) !in done
    ensures var skip := Align(r, HeaderAt(h, p + 1, i), drawn);
            && (skip.ending == Completed <==> WithinLimits(r, HeaderAt(h, p + 1, i)))
            && (skip.ending == Completed ==>
                  && grew && skip.after.chainRecv.Some?
                  && MessageKey(skip.after.chainRecv.value) == MkAt(h, p + 1, i)
                  && EndOk(Opened(skip.after), h.Grow(drawn), p + 2, done + {(h.keys[p + 1], i)}))
            && (skip.ending == Refused ==>
                  EndOk(skip.after, if grew then h.Grow(drawn) else h, if grew then p + 2 else p, done))
  {
    hide FollowHeader, EndOk, SkipMessageKeys;
    var header := HeaderAt(h, p + 1, i);
    FollowNext(r, h, p, done, i, drawn);
    var followed := FollowHeader(r, header, drawn);
    grew := followed.ending == Completed;
    if grew {
      var g := h.Grow(drawn);
      GrowKeepsChains(h, drawn);
      assert g.keys[p + 1] == h.keys[p + 1] && g.count[p + 1] == h.count[p + 1];
      OpenAhead(followed.after, g, p + 2, done, i);
    }
  }

  /** Following the peer to its next key: finish the chain received so far, then ratchet. */
  lemma {:induction false} FollowNext(r: State, h: History, p: nat, done: set<Slot>, i: nat, drawn: nat)
    requires |h.keys| == |h.count| == p + 2 && EndOk(r, h, p, done) && Distinct(h.keys)
    requires h.count[0] == 0
    requires drawn !in h.keys && forall n: nat :: (drawn, n) !in done
    ensures var header := HeaderAt(h, p + 1, i);
            var followed := FollowHeader(r, header, drawn);
            var rest := if r.chainRecv.Some? then header.pn - r.nRecv else 0;
            && (followed.ending == Completed <==> rest <= MAX_SKIP && |r.skipped| + rest <= MAX_SKIPPED_CACHE)
            && (followed.ending == Completed ==>
                  && EndOk(followed.after, h.Grow(drawn), p + 2, done)
                  && followed.after.nRecv == 0 && |followed.after.skipped| == |r.skipped| + rest)
            && (followed.ending == Refused ==> followed.after == r)
            && (h.keys[p + 1], i) !in r.skipped && r.dhRemote != Some(header.dhPub)
  {
    var header := HeaderAt(h, p + 1, i);
    assert r.dhRemote != Some(header.dhPub);
    if p >= 2 {
      SkipInChain(r, h, p, done, header.pn);
    }
    var skip := SkipMessageKeys(r, header.pn);
    if skip.ending == Completed {
      RatchetInStep(skip.after, h, p, done, drawn);
    }
  }

  // ------------------------------------------------------------------ steps and runs

  function StartHistory(root: Key, signedPrekey: nat, nextSecret: nat): History {
    History(root, [signedPrekey, nextSecret], [0, 0], [], 1, 0)
  }

  lemma {:induction false} StartOk(root: Key, signedPrekey: nat, prefix: Prefix, nextSecret: nat)
    requires signedPrekey < nextSecret
    ensures Inv(Start(root, signedPrekey, prefix, nextSecret), StartHistory(root, signedPrekey, nextSecret))
  {
    var h := StartHistory(root, signedPrekey, nextSecret);
    assert RootAt(root, h.keys, 1) == Root(RootAt(root, h.keys, 0), Dh(signedPrekey, nextSecret));
  }

  /** The history after the end `who` sends one message. */
  function WriteHistory(h: History, who: Party): History
    requires h.Position(who) < |h.count|
  {
    var p := h.Position(who);
    h.(count := h.count[p := h.count[p] + 1], at := h.at + [p])
  }

  lemma {:induction false} WriteKeepsOwnEnd(r: State, h: History, who: Party, done: set<Slot>)
    requires |h.keys| == |h.count| && EndOk(r, h, h.Position(who), done) && 0 < h.Position(who)
    ensures EndOk(r.(chainSend := Some(NextChain(r.chainSend.value)), nSend := r.nSend + 1),
                  WriteHistory(h, who), h.Position(who), done)
  {
    var g := WriteHistory(h, who);
    var p := h.Position(who);
    assert Advance(ChainAt(h.root, h.keys, p), r.nSend + 1) == NextChain(r.chainSend.value);
    assert forall k: nat, i: nat :: 0 < k < |h.keys| ==> MkAt(g, k, i) == MkAt(h, k, i);
  }

  lemma {:induction false} WriteKeepsPeer(r: State, h: History, who: Party, done: set<Slot>)
    requires WellFormed(h) && EndOk(r, h, h.Position(Peer(who)), done)
    ensures EndOk(r, WriteHistory(h, who), h.Position(Peer(who)), done)
  {
    var g := WriteHistory(h, who);
    var p := h.Position(Peer(who));
    assert forall k: nat :: Follows(p, k) && k < |h.keys| ==> Reached(r, g, p, k) == Reached(r, h, p, k);
    assert KeysOk(r, g, p);
    assert forall k: nat, i: nat :: 0 < k < |h.keys| ==> MkAt(g, k, i) == MkAt(h, k, i);
  }

  lemma {:induction false} WriteKeepsInv(c: Conv, h: History, who: Party, text: Bytes) returns (next: History)
    requires Inv(c, h)
    ensures Inv(Step(c, Write(who, text)), next)
  {
    if c.End(who).chainSend.Some? {
      next := WriteHistory(h, who);
      WriteInOrder(c, h, who, text);
    } else {
      next := h;
      hide Inv;
      assert Step(c, Write(who, text)) == c;
    }
  }

  lemma {:induction false} WriteInOrder(c: Conv, h: History, who: Party, text: Bytes)
    requires WellFormed(h) && forall k :: 0 <= k < |h.keys| ==> h.keys[k] < c.nextSecret
    requires c.End(who).chainSend.Some? && 0 < h.Position(who) < |h.keys|
    requires KeysOk(c.End(who), h, h.Position(who))
    requires EndOk(c.End(who), h, h.Position(who), Done(c))
    requires EndOk(c.End(Peer(who)), h, h.Position(Peer(who)), Done(c))
    requires TrafficOk(c, h)
    ensures Inv(Step(c, Write(who, text)), WriteHistory(h, who))
  {
    hide EndOk, KeysOk, TrafficOk;
    WriteKeepsOwnEnd(c.End(who), h, who, Done(c));
    WriteKeepsPeer(c.End(Peer(who)), h, who, Done(c));
    WriteKeepsTraffic(c, h, who, text);
  }

  lemma {:induction false} WriteKeepsTraffic(c: Conv, h: History, who: Party, text: Bytes)
    requires WellFormed(h) && h.Position(who) < |h.keys| && KeysOk(c.End(who), h, h.Position(who))
    requires TrafficOk(c, h) && c.End(who).chainSend.Some?
    ensures var after, next := Step(c, Write(who, text)), WriteHistory(h, who);
            TrafficOk(after, next) && Done(after) == Done(c)
  {
    var after, next := Step(c, Write(who, text)), WriteHistory(h, who);
    forall j: nat | j < |after.sent|
      ensures SentOk(after, next, j)
      ensures j < |c.sent| ==> after.sent[j].Slot() != after.sent[|c.sent|].Slot()
    {
      WriteKeepsSent(c, h, who, text, j);
    }
  }

  lemma {:induction false} WriteKeepsSent(c: Conv, h: History, who: Party, text: Bytes, j: nat)
    requires WellFormed(h) && h.Position(who) < |h.keys| && KeysOk(c.End(who), h, h.Position(who))
    requires c.End(who).chainSend.Some?
    requires |c.sent| == |h.at| && j <= |c.sent|
    requires j < |c.sent| ==> SentOk(c, h, j)
    ensures var after, next := Step(c, Write(who, text)), WriteHistory(h, who);
            && SentOk(after, next, j)
            && (j < |c.sent| ==> c.sent[j].Slot() != after.sent[|c.sent|].Slot())
  {
    var after, next := Step(c, Write(who, text)), WriteHistory(h, who);
    if j < |c.sent| {
      SentCarries(c, h, after, next, [], j);
    }
  }

  /** A sent message stays what it was when messages are added and chains opened. */
  lemma {:induction false} SentCarries(c: Conv, h: History, after: Conv, next: History, more: seq<nat>, j: nat)
    requires |h.keys| == |h.count| && j < |c.sent| == |h.at| && SentOk(c, h, j)
    requires j < |after.sent| == |next.at| && after.sent[j] == c.sent[j] && next.at[j] == h.at[j]
    requires after.prefix == c.prefix && next.root == h.root && next.keys == h.keys + more
    requires |next.count| == |next.keys|
    requires next.count[h.at[j]] >= h.count[h.at[j]] && PnAt(next, h.at[j]) == PnAt(h, h.at[j])
    ensures SentOk(after, next, j)
  {
    var k := h.at[j];
    RootAtPrefix(h.root, h.keys, more, k - 1);
    assert next.keys[k] == h.keys[k] && next.keys[k - 1] == h.keys[k - 1];
  }

  /** A message not yet decrypted has its slot open, since no two messages share one. */
  lemma {:induction false} UndoneSlot(c: Conv, h: History, j: nat)
    requires |h.keys| == |h.count| && TrafficOk(c, h) && j < |c.sent| && j !in c.decrypted
    ensures c.sent[j].Slot() !in Done(c)
  {
    forall i | i in c.decrypted
      ensures c.sent[i].Slot() != c.sent[j].Slot()
    {
      if i < j {
      } else {
        assert j < i;
      }
    }
  }

  /** The receiving end of message `j` does what `DeliverTo` says of its position. */
  lemma {:induction false} DeliverEnds(c: Conv, h: History, j: nat) returns (grew: bool)
    requires Inv(c, h) && j < |c.sent| && j !in c.decrypted
    ensures var m, who := c.sent[j], Peer(c.sent[j].from);
            var att := Attempted(c, j);
            && att.result == (if WithinLimits(c.End(who), m.header) then Ok(m.text) else Err(DecryptFailed))
            && (att.result.Ok? ==> !att.torn)
            && (grew ==> |h.keys| == h.Position(who) + 2)
            && (!att.torn ==>
                  EndOk(att.after, if grew then h.Grow(c.nextSecret) else h,
                        if grew then h.Position(who) + 2 else h.Position(who),
                        if att.result.Ok? then Done(c) + {m.Slot()} else Done(c)))
  {
    var m, who := c.sent[j], Peer(c.sent[j].from);
    assert SentOk(c, h, j);
    UndoneSlot(c, h, j);
    DoneBelow(c, h);
    hide EndOk, Decrypt, WithinLimits;
    grew := DeliverTo(c.End(who), h, h.Position(who), Done(c), h.at[j], m.header.n, m.text, c.prefix, c.nextSecret);
  }

  lemma {:induction false} DoneBelow(c: Conv, h: History)
    requires |h.keys| == |h.count| && TrafficOk(c, h)
    requires forall k :: 0 <= k < |h.keys| ==> h.keys[k] < c.nextSecret
    ensures forall i: nat :: (c.nextSecret, i) !in Done(c)
  {
    forall j | j in c.decrypted
      ensures c.sent[j].header.dhPub < c.nextSecret
    {
      assert SentOk(c, h, j);
    }
  }

  /** Decrypting message `j` elsewhere leaves its sender in order. */
  lemma {:induction false} SenderKeeps(r: State, h: History, p: nat, done: set<Slot>, k: nat, i: nat)
    requires |h.keys| == |h.count| && Distinct(h.keys) && EndOk(r, h, p, done)
    requires k < |h.keys| && k % 2 == p % 2
    ensures EndOk(r, h, p, done + {(h.keys[k], i)})
  {
    var done' := done + {(h.keys[k], i)};
    forall k': nat, i': nat | k' < |h.keys|
      ensures (h.keys[k'], i') in r.skipped <==>
                Follows(p, k') && i' < Reached(r, h, p, k') && (h.keys[k'], i') !in done'
    {
      assert h.keys[k'] == h.keys[k] <==> k' == k;
    }
  }

  /** Traffic is judged by what was sent, not by the ends. */
  lemma {:induction false} SameTraffic(c: Conv, after: Conv, h: History)
    requires |h.keys| == |h.count| && TrafficOk(c, h)
    requires after.sent == c.sent && after.prefix == c.prefix && after.decrypted == c.decrypted
    ensures TrafficOk(after, h) && Done(after) == Done(c)
  {
    forall j: nat | j < |c.sent|
      ensures SentOk(after, h, j)
    {
      assert SentOk(c, h, j);
    }
  }

  lemma {:induction false} GrowKeepsTraffic(c: Conv, h: History, who: Party, p: nat)
    requires |h.keys| == |h.count| && TrafficOk(c, h)
    ensures TrafficOk(c, h.Grow(c.nextSecret).Move(who, p))
  {
    var next := h.Grow(c.nextSecret).Move(who, p);
    forall j: nat | j < |c.sent|
      ensures SentOk(c, next, j)
    {
      assert SentOk(c, h, j);
      SentCarries(c, h, c, next, [c.nextSecret], j);
    }
  }

  lemma {:induction false} DeliverKeepsSender(c: Conv, h: History, j: nat, grew: bool)
    requires Inv(c, h) && j < |c.sent| && j !in c.decrypted
    ensures EndOk(c.End(c.sent[j].from), if grew then h.Grow(c.nextSecret) else h, h.Position(c.sent[j].from),
                  if Attempted(c, j).result.Ok? then Done(c) + {c.sent[j].Slot()} else Done(c))
  {
    var m := c.sent[j];
    var r, p := c.End(m.from), h.Position(m.from);
    assert SentOk(c, h, j);
    SenderKeeps(r, h, p, Done(c), h.at[j], m.header.n);
    DoneBelow(c, h);
    if grew {
      GrowKeepsEnd(r, h, p, Done(c), c.nextSecret);
      GrowKeepsEnd(r, h, p, Done(c) + {m.Slot()}, c.nextSecret);
    }
  }

  lemma {:induction false} EndOkMoves(r: State, h: History, who: Party, q: nat, p: nat, done: set<Slot>)
    requires |h.keys| == |h.count| && EndOk(r, h, p, done)
    ensures EndOk(r, h.Move(who, q), p, done)
  {
    var g := h.Move(who, q);
    assert forall k: nat, i: nat :: 0 < k < |h.keys| ==> MkAt(g, k, i) == MkAt(h, k, i);
  }

  lemma {:induction false} DeliverKeepsInv(c: Conv, h: History, j: nat) returns (next: History)
    requires Inv(c, h) && Allowed(c, Deliver(j))
    ensures Inv(Step(c, Deliver(j)), next)
  {
    hide EndOk, SentOk, Attempted, Decrypt;
    var m, who := c.sent[j], Peer(c.sent[j].from);
    var grew := DeliverEnds(c, h, j);
    DeliverKeepsSender(c, h, j, grew);
    DeliverKeepsTraffic(c, h, j);
    var after := Step(c, Deliver(j));
    AllowedIsUntorn(c, j);
    assert Done(after) == if Attempted(c, j).result.Ok? then Done(c) + {m.Slot()} else Done(c);
    if grew {
      SameTraffic(after, after.(nextSecret := c.nextSecret), h);
      next := GrowInv(after.(nextSecret := c.nextSecret), h, who);
      assert after == after.(nextSecret := c.nextSecret).(nextSecret := c.nextSecret + 1);
    } else {
      next := h;
    }
  }

  lemma {:induction false} AllowedIsUntorn(c: Conv, j: nat)
    requires j < |c.sent| && j !in c.decrypted
    ensures Allowed(c, Deliver(j)) <==> !Attempted(c, j).torn
  {
    TearsExactly(c.End(Peer(c.sent[j].from)), c.sent[j].header, c.sent[j].ct, c.prefix, c.nextSecret);
  }

  /** Once both ends are in order for the grown history, the whole conversation is. */
  lemma {:induction false} GrowInv(c: Conv, h: History, who: Party) returns (next: History)
    requires WellFormed(h) && |h.keys| == h.Position(who) + 2
    requires forall k :: 0 <= k < |h.keys| ==> h.keys[k] < c.nextSecret
    requires EndOk(c.End(who), h.Grow(c.nextSecret), h.Position(who) + 2, Done(c))
    requires EndOk(c.End(Peer(who)), h.Grow(c.nextSecret), h.Position(Peer(who)), Done(c))
    requires TrafficOk(c, h)
    ensures Inv(c.(nextSecret := c.nextSecret + 1), next)
  {
    hide EndOk, SentOk;
    var g := h.Grow(c.nextSecret);
    var p := h.Position(who) + 2;
    next := g.Move(who, p);
    EndOkMoves(c.End(who), g, who, p, p, Done(c));
    EndOkMoves(c.End(Peer(who)), g, who, p, h.Position(Peer(who)), Done(c));
    GrowKeepsTraffic(c, h, who, p);
    var after := c.(nextSecret := c.nextSecret + 1);
    assert Done(after) == Done(c);
    SameTraffic(c, after, next);
  }

  lemma {:induction false} DeliverKeepsTraffic(c: Conv, h: History, j: nat)
    requires |h.keys| == |h.count| && TrafficOk(c, h) && Allowed(c, Deliver(j))
    ensures TrafficOk(Step(c, Deliver(j)), h)
  {
    forall i: nat | i < |c.sent|
      ensures SentOk(Step(c, Deliver(j)), h, i)
    {
      assert SentOk(c, h, i);
    }
  }

  lemma {:induction false} RunKeepsInv(c: Conv, h: History, events: seq<Event>, last: Conv) returns (next: History)
    requires Inv(c, h) && Run(c, events, last)
    ensures Inv(last, next)
    decreases |events|
  {
    if events == [] {
      next := h;
    } else {
      match events[0] {
        case Write(who, text) => next := WriteKeepsInv(c, h, who, text);
        case Deliver(j) => next := DeliverKeepsInv(c, h, j);
      }
      next := RunKeepsInv(Step(c, events[0]), next, events[1..], last);
    }
  }

  // ------------------------------------------------------------------ what every run guarantees

  /** In any run, a delivery that stays within the limits yields the sender's plaintext; one
      that does not yields an error. Within the limits the run may always go on with it. */
  lemma {:induction false} EveryDeliveryDecrypts(root: Key, signedPrekey: nat, prefix: Prefix, nextSecret: nat,
                                                 events: seq<Event>, c: Conv, j: nat)
    requires signedPrekey < nextSecret && Run(Start(root, signedPrekey, prefix, nextSecret), events, c)
    requires j < |c.sent| && j !in c.decrypted
    ensures var limits := WithinLimits(c.End(Peer(c.sent[j].from)), c.sent[j].header);
            && Attempted(c, j).result == (if limits then Ok(c.sent[j].text) else Err(DecryptFailed))
            && (limits ==> Allowed(c, Deliver(j)))
  {
    StartOk(root, signedPrekey, prefix, nextSecret);
    var h := RunKeepsInv(Start(root, signedPrekey, prefix, nextSecret),
                         StartHistory(root, signedPrekey, nextSecret), events, c);
    var _ := DeliverEnds(c, h, j);
    AllowedIsUntorn(c, j);
  }

  /** The end `ahead` has taken one root step more than `behind`, and that step is the one
      `behind` will take next with its current secret: same root, same chain. */
  ghost predicate OneStepAhead(ahead: State, behind: State) {
    var dh := Dh(behind.dhSelf, ahead.dhSelf);
    && Depth(ahead.rootKey) == Depth(behind.rootKey) + 1
    && ahead.rootKey == Root(behind.rootKey, dh)
    && ahead.chainSend == Some(Advance(Chain(behind.rootKey, dh), ahead.nSend))
  }

  lemma {:induction false} EndsOneStepApart(root: Key, signedPrekey: nat, prefix: Prefix, nextSecret: nat,
                                            events: seq<Event>, c: Conv)
    requires signedPrekey < nextSecret && Run(Start(root, signedPrekey, prefix, nextSecret), events, c)
    ensures OneStepAhead(c.initiator, c.responder) || OneStepAhead(c.responder, c.initiator)
  {
    hide Inv, OneStepAhead, Run;
    StartOk(root, signedPrekey, prefix, nextSecret);
    var h := RunKeepsInv(Start(root, signedPrekey, prefix, nextSecret),
                         StartHistory(root, signedPrekey, nextSecret), events, c);
    assert WellFormed(h) && EndOk(c.initiator, h, h.initiator, Done(c))
           && EndOk(c.responder, h, h.responder, Done(c)) by {
    }
    if h.initiator > h.responder {
      AheadOfPeer(c.initiator, c.responder, h, h.responder);
    } else {
      AheadOfPeer(c.responder, c.initiator, h, h.initiator);
    }
  }

  lemma {:induction false} AheadOfPeer(ahead: State, behind: State, h: History, p: nat)
    requires |h.keys| == |h.count| == p + 2
    requires KeysOk(ahead, h, p + 1) && KeysOk(behind, h, p)
    ensures OneStepAhead(ahead, behind)
  {
    assert RootAt(h.root, h.keys, p + 1) == Root(RootAt(h.root, h.keys, p), Dh(h.keys[p], h.keys[p + 1]));
  }

  /** Message `j` is decrypted or cached exactly when its number lies below the point its
      receiver has reached in its chain; never both; and a cached key opens it. */
  ghost predicate Accounted(c: Conv, h: History, j: nat)
    requires Inv(c, h) && j < |c.sent|
  {
    var m := c.sent[j];
    var r, p := c.End(Peer(m.from)), h.Position(Peer(m.from));
    && (Follows(p, h.at[j]) && m.header.n < Reached(r, h, p, h.at[j]) <==>
          j in c.decrypted || m.Slot() in r.skipped)
    && !(j in c.decrypted && m.Slot() in r.skipped)
    && (m.Slot() in r.skipped ==>
          AeadOpen(r.skipped[m.Slot()], m.ct, AssociatedData(c.prefix, m.header)) == Ok(m.text))
  }

  /** Of the numbers an end has reached in the chains it followed, each message is decrypted or
      cached, never both, and a cached key opens its message; nothing further on is either. */
  lemma {:induction false} ReachedIsDecryptedOrCached(root: Key, signedPrekey: nat, prefix: Prefix, nextSecret: nat,
                                                      events: seq<Event>, c: Conv) returns (h: History)
    requires signedPrekey < nextSecret && Run(Start(root, signedPrekey, prefix, nextSecret), events, c)
    ensures Inv(c, h) && forall j: nat :: j < |c.sent| ==> Accounted(c, h, j)
  {
    hide Inv, Accounted;
    StartOk(root, signedPrekey, prefix, nextSecret);
    h := RunKeepsInv(Start(root, signedPrekey, prefix, nextSecret),
                     StartHistory(root, signedPrekey, nextSecret), events, c);
    forall j: nat | j < |c.sent|
      ensures Accounted(c, h, j)
    {
      MessageAccounted(c, h, j);
    }
  }

  lemma {:induction false} MessageAccounted(c: Conv, h: History, j: nat)
    requires Inv(c, h) && j < |c.sent|
    ensures Accounted(c, h, j)
  {
    assert SentOk(c, h, j);
    if j in c.decrypted {
      assert c.sent[j].Slot() in Done(c);
    } else {
      UndoneSlot(c, h, j);
    }
  }
}
