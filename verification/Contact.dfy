/**
 A whole contact: one initiator session, the responder's account and, once a first message has
 been accepted, the responder's session. Its runs are the two-ended ratchet runs of
 `Conversation`, with the handshake header riding along until the first reply.
 */
module Contact {
  import opened Results
  import opened KeySchedule
  import opened Ratchet
  import opened CacheLimit
  import opened Identity
  import opened Handshake
  import opened Session
  import opened Conversation

  datatype Wire = Wire(from: Party, message: Message, text: Bytes)

  datatype World = World(
    initiator: SessionState,
    account: AccountState,
    responder: Option<SessionState>,
    nextSecret: nat,
    wire: seq<Wire>,
    decrypted: set<nat>)

  /** The initiator fetched a bundle of the account's and opened a session from it. */
  datatype Setup = Setup(alice: AccountState, bob: AccountState, oneTime: Option<(nat, nat)>,
                         ephemeral: nat, coins: nat, drawn: nat)
  {
    function Init(): Initiation { Initiate(alice, BundleWith(bob, oneTime), ephemeral, coins) }

    function Prefix(): Prefix { Ratchet.Prefix(alice.ed, bob.ed) }
  }

  predicate SetupOk(s: Setup) {
    Offered(s.bob, s.oneTime) && s.bob.signedPrekey < s.drawn
  }

  function Opening(s: Setup): World
    requires SetupOk(s)
  {
    var session := InitiateSession(s.alice, BundleWith(s.bob, s.oneTime), s.ephemeral, s.coins, s.drawn);
    World(session.value, s.bob, None, s.drawn + 1, [], {})
  }

  /** Who receives message `j`, and with what result. A responder without a session answers
      with `respond`, one with a session with `decrypt`. */
  function Receipt(w: World, j: nat): (World, Result<Bytes>)
    requires j < |w.wire|
  {
    var m := w.wire[j].message;
    if w.wire[j].from == Responder then
      var (s, r) := DecryptSession(w.initiator, m, w.nextSecret);
      (w.(initiator := s), r)
    else if w.responder.Some? then
      var (s, r) := DecryptSession(w.responder.value, m, w.nextSecret);
      (w.(responder := Some(s)), r)
    else
      var (account, r) := RespondSession(w.account, m, w.nextSecret);
      if r.Ok? then (w.(account := account, responder := Some(r.value.0)), Ok(r.value.1))
      else (w.(account := account), Err(r.error))
  }

  /** Receiving message `j` would tear a skip; a responder's first ratchet is too empty to. */
  predicate TearsAt(w: World, j: nat)
    requires j < |w.wire|
  {
    var header := w.wire[j].message.header;
    if w.wire[j].from == Responder then WouldTear(w.initiator.ratchet, header)
    else w.responder.Some? && WouldTear(w.responder.value.ratchet, header)
  }

  /** Each message is decrypted at most once, no skip tears, and the first message to reach the
      responder is not numbered beyond the skip bound. */
  predicate Permitted(w: World, e: Event) {
    match e
    case Write(_, _) => true
    case Deliver(j) =>
      && j < |w.wire| && j !in w.decrypted && !TearsAt(w, j)
      && (w.wire[j].from == Initiator && w.responder.None? ==> w.wire[j].message.header.n <= MAX_SKIP)
  }

  function Proceed(w: World, e: Event): World
    requires Permitted(w, e)
  {
    match e
    case Write(who, text) =>
      if who == Responder && w.responder.None? then w
      else
        var (s, r) := EncryptSession(if who == Responder then w.responder.value else w.initiator, text);
        var next := if who == Initiator then w.(initiator := s) else w.(responder := Some(s));
        if r.Ok? then next.(wire := w.wire + [Wire(who, r.value, text)]) else next
    case Deliver(j) =>
      var (next, r) := Receipt(w, j);
      next.(nextSecret := w.nextSecret + 1, decrypted := if r.Ok? then w.decrypted + {j} else w.decrypted)
  }

  ghost predicate Proceeds(w: World, events: seq<Event>, last: World)
    decreases |events|
  {
    if events == [] then w == last
    else Permitted(w, events[0]) && Proceeds(Proceed(w, events[0]), events[1..], last)
  }

  // ------------------------------------------------------------------ refinement

  function SentOf(w: Wire): Sent {
    Sent(w.from, w.message.header, w.message.ct, w.text)
  }

  function AllSent(wire: seq<Wire>): seq<Sent> {
    seq(|wire|, i requires 0 <= i < |wire| => SentOf(wire[i]))
  }

  /** The ratchet conversation inside a world; a responder without a session counts as one
      whose ratchet has just been initialised. */
  function Inside(s: Setup, w: World): Conv {
    Conv(w.initiator.ratchet,
         if w.responder.Some? then w.responder.value.ratchet else InitResponder(s.Init().root, s.bob.signedPrekey),
         s.Prefix(), w.nextSecret, AllSent(w.wire), w.decrypted)
  }

  /** The initiator has decrypted something. */
  ghost predicate Heard(w: World) {
    exists j :: j in w.decrypted && j < |w.wire| && w.wire[j].from == Responder
  }

  ghost predicate WorldOk(s: Setup, w: World) {
    var hs := s.Init().header;
    && w.initiator.prefix == s.Prefix()
    && w.initiator.pending == (if Heard(w) then None else Some(hs))
    && (forall j :: j in w.decrypted ==> j < |w.wire|)
    && (forall j :: 0 <= j < |w.wire| && w.wire[j].from == Responder ==> w.wire[j].message.Normal?)
    && (forall j :: 0 <= j < |w.wire| && w.wire[j].message.PreKey? ==> w.wire[j].message.handshake == hs)
    && (w.responder.Some? ==> w.responder.value.prefix == s.Prefix() && w.responder.value.pending == None)
    && (w.responder.None? ==>
          && w.account == s.bob && w.decrypted == {}
          && forall j :: 0 <= j < |w.wire| ==> w.wire[j].from == Initiator && w.wire[j].message.PreKey?)
  }

  ghost predicate Linked(s: Setup, w: World, h: History) {
    SetupOk(s) && WorldOk(s, w) && Inv(Inside(s, w), h)
  }

  lemma {:induction false} OpeningLinked(s: Setup)
    requires SetupOk(s)
    ensures Inside(s, Opening(s)) == Start(s.Init().root, s.bob.signedPrekey, s.Prefix(), s.drawn)
    ensures Linked(s, Opening(s), StartHistory(s.Init().root, s.bob.signedPrekey, s.drawn))
  {
    HandshakeAgrees(s.alice, s.bob, s.bob, s.oneTime, s.ephemeral, s.coins);
    StartOk(s.Init().root, s.bob.signedPrekey, s.Prefix(), s.drawn);
    assert AllSent([]) == [];
  }

  /** Sending is a ratchet step, and wraps the message as the session's state demands. */
  lemma {:induction false} WriteStep(s: Setup, w: World, who: Party, text: Bytes)
    requires SetupOk(s) && WorldOk(s, w)
    ensures Inside(s, Proceed(w, Write(who, text))) == Step(Inside(s, w), Write(who, text))
    ensures WorldOk(s, Proceed(w, Write(who, text)))
  {
    var after := Proceed(w, Write(who, text));
    if |after.wire| > |w.wire| {
      assert after.wire == w.wire + [after.wire[|w.wire|]];
      assert AllSent(after.wire) == AllSent(w.wire) + [SentOf(after.wire[|w.wire|])];
      assert Heard(w) ==> Heard(after);
    }
  }

  /** Receiving is a ratchet step, with the same result. */
  ghost predicate Matches(s: Setup, w: World, j: nat)
    requires Permitted(w, Deliver(j))
  {
    var c := Inside(s, w);
    && Allowed(c, Deliver(j))
    && Inside(s, Proceed(w, Deliver(j))) == Step(c, Deliver(j))
    && Receipt(w, j).1 == Attempted(c, j).result
  }

  lemma {:induction false} DeliverStep(s: Setup, w: World, h: History, j: nat)
    requires Linked(s, w, h) && Permitted(w, Deliver(j))
    ensures Matches(s, w, j) && WorldOk(s, Proceed(w, Deliver(j)))
  {
    if w.wire[j].from == Initiator && w.responder.None? {
      FirstContact(s, w, h, j);
    } else {
      LaterContact(s, w, j);
    }
  }

  /** The first message: the handshake gives the responder the initiator's root. */
  lemma {:induction false} FirstContact(s: Setup, w: World, h: History, j: nat)
    requires Linked(s, w, h) && Permitted(w, Deliver(j))
    requires w.wire[j].from == Initiator && w.responder.None?
    ensures Matches(s, w, j) && WorldOk(s, Proceed(w, Deliver(j)))
  {
    var _ := DeliverEnds(Inside(s, w), h, j);
    FirstWithinLimits(s, w, j);
    FirstReceipt(s, w, j);
    FirstAdopted(s, w, j);
  }

  lemma {:induction false} FirstAdopted(s: Setup, w: World, j: nat)
    requires SetupOk(s) && WorldOk(s, w) && Permitted(w, Deliver(j))
    requires w.wire[j].from == Initiator && w.responder.None?
    requires var m := w.wire[j].message;
             var first := InitResponder(s.Init().root, s.bob.signedPrekey);
             var att := Decrypt(first, m.header, m.ct, s.Prefix(), w.nextSecret);
             && att.result.Ok? && !att.torn
             && Receipt(w, j).1 == att.result
             && Receipt(w, j).0 == w.(account := Receipt(w, j).0.account,
                                      responder := Some(SessionState(att.after, s.Prefix(), None)))
    ensures Matches(s, w, j) && WorldOk(s, Proceed(w, Deliver(j)))
  {
    hide Decrypt, Receipt, Initiate;
    AllowedIsUntorn(Inside(s, w), j);
    hide WouldTear;
    assert !Heard(w) && !Heard(Proceed(w, Deliver(j)));
  }

  /** What `respond` does with the initiator's message, once its handshake is understood. */
  lemma {:induction false} FirstReceipt(s: Setup, w: World, j: nat)
    requires SetupOk(s) && WorldOk(s, w) && j < |w.wire| && w.wire[j].from == Initiator && w.responder.None?
    ensures var m := w.wire[j].message;
            var first := InitResponder(s.Init().root, s.bob.signedPrekey);
            var att := Decrypt(first, m.header, m.ct, s.Prefix(), w.nextSecret);
            && Receipt(w, j).1 == att.result
            && (att.result.Ok? ==>
                  Receipt(w, j).0 == w.(account := Receipt(w, j).0.account,
                                       responder := Some(SessionState(att.after, s.Prefix(), None))))
  {
    hide Decrypt;
    HandshakeAgrees(s.alice, s.bob, s.bob, s.oneTime, s.ephemeral, s.coins);
    var m := w.wire[j].message;
    assert m.PreKey? && m.handshake == s.Init().header && m.handshake.identityEd == s.alice.ed;
  }

  lemma {:induction false} LaterContact(s: Setup, w: World, j: nat)
    requires WorldOk(s, w) && Permitted(w, Deliver(j))
    requires w.wire[j].from == Responder || w.responder.Some?
    ensures Matches(s, w, j) && WorldOk(s, Proceed(w, Deliver(j)))
  {
    hide Decrypt;
    var after := Proceed(w, Deliver(j));
    if Receipt(w, j).1.Ok? {
      assert j in after.decrypted;
    }
    assert Heard(after) == (Heard(w) || (w.wire[j].from == Responder && Receipt(w, j).1.Ok?));
  }

  lemma {:induction false} ProceedsLinked(s: Setup, w: World, h: History, events: seq<Event>, last: World)
    returns (next: History)
    requires Linked(s, w, h) && Proceeds(w, events, last)
    ensures Linked(s, last, next)
    decreases |events|
  {
    if events == [] {
      next := h;
    } else {
      match events[0] {
        case Write(who, text) =>
          WriteStep(s, w, who, text);
          next := WriteKeepsInv(Inside(s, w), h, who, text);
        case Deliver(j) =>
          DeliverStep(s, w, h, j);
          next := DeliverKeepsInv(Inside(s, w), h, j);
      }
      next := ProceedsLinked(s, Proceed(w, events[0]), next, events[1..], last);
    }
  }

  // ------------------------------------------------------------------ what every contact guarantees

  /** From the first prekey message on, a delivery within the limits yields exactly the text its
      sender encrypted, and any other an error: handshake, session set-up and ratchet together.
      Within the limits the contact may always go on with it. */
  lemma {:induction false} EveryMessageArrives(s: Setup, events: seq<Event>, w: World, j: nat)
    requires SetupOk(s) && Proceeds(Opening(s), events, w) && j < |w.wire| && j !in w.decrypted
    ensures var m := w.wire[j];
            var limits := WithinLimits(Inside(s, w).End(Peer(m.from)), m.message.header);
            && Receipt(w, j).1 == (if limits then Ok(m.text) else Err(DecryptFailed))
            && (limits ==> Permitted(w, Deliver(j)))
  {
    hide Linked, Receipt, Permitted, WithinLimits;
    OpeningLinked(s);
    var h := ProceedsLinked(s, Opening(s), StartHistory(s.Init().root, s.bob.signedPrekey, s.drawn), events, w);
    Arrives(s, w, h, j);
  }

  lemma {:induction false} Arrives(s: Setup, w: World, h: History, j: nat)
    requires Linked(s, w, h) && j < |w.wire| && j !in w.decrypted
    ensures var m := w.wire[j];
            var limits := WithinLimits(Inside(s, w).End(Peer(m.from)), m.message.header);
            && Receipt(w, j).1 == (if limits then Ok(m.text) else Err(DecryptFailed))
            && (limits ==> Permitted(w, Deliver(j)))
  {
    hide Inv, WorldOk, Receipt, TearsAt, Attempted, Decrypt, WithinLimits;
    ReceiptIs(s, w, j);
    var _ := DeliverEnds(Inside(s, w), h, j);
    if w.wire[j].from == Initiator && w.responder.None? {
      FirstWithinLimits(s, w, j);
    }
  }

  lemma {:induction false} ReceiptIs(s: Setup, w: World, j: nat)
    requires SetupOk(s) && WorldOk(s, w) && j < |w.wire|
    ensures Receipt(w, j).1 == Attempted(Inside(s, w), j).result
    ensures TearsAt(w, j) ==> Attempted(Inside(s, w), j).torn
  {
    hide Decrypt, WouldTear;
    if w.wire[j].from == Initiator && w.responder.None? {
      FirstReceipt(s, w, j);
    }
    var m := w.wire[j].message;
    TearsExactly(Inside(s, w).End(Peer(w.wire[j].from)), m.header, m.ct, s.Prefix(), w.nextSecret);
  }

  lemma {:induction false} FirstWithinLimits(s: Setup, w: World, j: nat)
    requires SetupOk(s) && j < |w.wire| && w.wire[j].from == Initiator && w.responder.None?
    ensures WithinLimits(Inside(s, w).End(Responder), w.wire[j].message.header) <==>
              w.wire[j].message.header.n <= MAX_SKIP
  {
  }

  /** Until the responder has a session all traffic is the initiator's and every message of it
      carries the one original handshake header; the initiator attaches that header for as
      long as it has decrypted nothing, and never again after. */
  lemma {:induction false} HandshakeRidesAlong(s: Setup, events: seq<Event>, w: World, text: Bytes)
    requires SetupOk(s) && Proceeds(Opening(s), events, w)
    ensures w.responder.None? ==> forall j :: 0 <= j < |w.wire| ==>
              w.wire[j].from == Initiator && w.wire[j].message.PreKey? && w.wire[j].message.handshake == s.Init().header
    ensures forall j :: 0 <= j < |w.wire| && w.wire[j].from == Responder ==> w.wire[j].message.Normal?
    ensures var after := Proceed(w, Write(Initiator, text));
            && |after.wire| == |w.wire| + 1
            && (Heard(w) ==> after.wire[|w.wire|].message.Normal?)
            && (!Heard(w) ==>
                  && after.wire[|w.wire|].message.PreKey?
                  && after.wire[|w.wire|].message.handshake == s.Init().header)
  {
    hide Linked, Proceeds, Proceed;
    OpeningLinked(s);
    var h := ProceedsLinked(s, Opening(s), StartHistory(s.Init().root, s.bob.signedPrekey, s.drawn), events, w);
    RidesAlong(s, w, h, text);
  }

  lemma {:induction false} RidesAlong(s: Setup, w: World, h: History, text: Bytes)
    requires Linked(s, w, h)
    ensures w.responder.None? ==> forall j :: 0 <= j < |w.wire| ==>
              w.wire[j].from == Initiator && w.wire[j].message.PreKey? && w.wire[j].message.handshake == s.Init().header
    ensures forall j :: 0 <= j < |w.wire| && w.wire[j].from == Responder ==> w.wire[j].message.Normal?
    ensures var after := Proceed(w, Write(Initiator, text));
            && |after.wire| == |w.wire| + 1
            && (Heard(w) ==> after.wire[|w.wire|].message.Normal?)
            && (!Heard(w) ==>
                  && after.wire[|w.wire|].message.PreKey?
                  && after.wire[|w.wire|].message.handshake == s.Init().header)
  {
    assert w.initiator.ratchet.chainSend.Some?;
    hide Inv, Initiate;
  }

  /** The key of number `n` in the first chain sent under the ratchet key `dhPub`. */
  function FirstChainKey(s: Setup, dhPub: nat, n: nat): Key {
    MessageKey(Advance(Chain(s.Init().root, Dh(s.bob.signedPrekey, dhPub)), n))
  }

  /** What a responder without a session makes of any packet that carries the initiator's header,
      forged or not: it accepts exactly a number within the skip bound with a ciphertext sealed for
      this header and these identities. Accepted or not, the one-time prekey is spent. */
  lemma {:induction false} FirstPacketExactly(s: Setup, header: Header, ct: Packet, drawn: nat, text: Bytes)
    requires SetupOk(s)
    ensures var (after, r) := RespondSession(s.bob, PreKey(s.Init().header, header, ct), drawn);
            && ((r.Ok? && r.value.1 == text) <==>
                  && header.n <= MAX_SKIP
                  && ct == AeadSeal(FirstChainKey(s, header.dhPub, header.n), text, AssociatedData(s.Prefix(), header)))
            && (r.Err? ==> r == Err(DecryptFailed))
            && after == (if s.oneTime.None? then s.bob
                         else s.bob.(oneTime := s.bob.oneTime - {s.oneTime.value.0}))
  {
    HandshakeAgrees(s.alice, s.bob, s.bob, s.oneTime, s.ephemeral, s.coins);
    var first := InitResponder(s.Init().root, s.bob.signedPrekey);
    FirstCall(first, header, ct, s.Prefix(), drawn);
    hide Decrypt, Initiate;
  }

  lemma {:induction false} FirstCall(r: State, header: Header, ct: Packet, prefix: Prefix, drawn: nat)
    requires r == InitResponder(r.rootKey, r.dhSelf)
    ensures Decrypt(r, header, ct, prefix, drawn).result ==
            if header.n <= MAX_SKIP then
              AeadOpen(MessageKey(Advance(Chain(r.rootKey, Dh(r.dhSelf, header.dhPub)), header.n)), ct,
                       AssociatedData(prefix, header))
            else Err(DecryptFailed)
  {
    if header.n <= MAX_SKIP {
      SkipLoopWithRoom(map[], header.dhPub, Chain(r.rootKey, Dh(r.dhSelf, header.dhPub)), 0, header.n);
    }
  }

  /** The bound on the first message matters: a first delivery numbered beyond it fails, and if
      the handshake used a one-time prekey that failure has spent it, so every later message
      carrying the header is refused. */
  lemma {:induction false} LateFirstMessageIsFatal(s: Setup, header: Header, ct: Packet, header': Header, ct': Packet,
                                                   drawn: nat, drawn': nat)
    requires SetupOk(s) && header.n > MAX_SKIP
    ensures var hs := s.Init().header;
            var (after, r) := RespondSession(s.bob, PreKey(hs, header, ct), drawn);
            && r == Err(DecryptFailed)
            && (s.oneTime.None? ==> after == s.bob)
            && (s.oneTime.Some? ==> RespondSession(after, PreKey(hs, header', ct'), drawn').1 == Err(UnknownPrekey))
  {
    HandshakeAgrees(s.alice, s.bob, s.bob, s.oneTime, s.ephemeral, s.coins);
    if s.oneTime.Some? {
      var after := s.bob.(oneTime := s.bob.oneTime - {s.oneTime.value.0});
      HandshakeAgrees(s.alice, s.bob, after, s.oneTime, s.ephemeral, s.coins);
    }
  }

  /** So a responder without a session accepts whichever message reaches it first exactly if that
      message's number is within the skip bound. A refusal leaves everything as it was if the
      handshake used no one-time prekey; if it used one, no message sent so far opens any more. */
  lemma {:induction false} FirstMessageExactly(s: Setup, events: seq<Event>, w: World, j: nat)
    requires SetupOk(s) && Proceeds(Opening(s), events, w) && j < |w.wire| && w.responder.None?
    ensures var (after, r) := Receipt(w, j);
            && r == (if w.wire[j].message.header.n <= MAX_SKIP then Ok(w.wire[j].text) else Err(DecryptFailed))
            && (r.Err? && s.oneTime.None? ==> after == w)
            && (r.Err? && s.oneTime.Some? ==>
                  forall k: nat :: k < |w.wire| ==> Receipt(after, k).1 == Err(UnknownPrekey))
  {
    hide Receipt, WithinLimits;
    OpeningLinked(s);
    var h := ProceedsLinked(s, Opening(s), StartHistory(s.Init().root, s.bob.signedPrekey, s.drawn), events, w);
    Arrives(s, w, h, j);
    FirstWithinLimits(s, w, j);
    if w.wire[j].message.header.n > MAX_SKIP {
      hide Inv, Proceeds;
      TooLate(s, w, j);
    }
  }

  /** Such a message can be about after `MAX_SKIP + 2` writes: if it is the first to arrive, every
      message is lost. */
  lemma {:induction false} LateFirstMessageHappens(s: Setup) returns (events: seq<Event>, w: World, j: nat)
    requires SetupOk(s)
    ensures Proceeds(Opening(s), events, w) && |events| == MAX_SKIP + 2 && j < |w.wire| && w.responder.None?
    ensures var (after, r) := Receipt(w, j);
            && r == Err(DecryptFailed)
            && (s.oneTime.Some? ==> forall k: nat :: k < |w.wire| ==> Receipt(after, k).1 == Err(UnknownPrekey))
  {
    events, w := WriteMany(s, MAX_SKIP + 2);
    j := MAX_SKIP + 1;
    hide Proceeds, Receipt;
    FirstMessageExactly(s, events, w, j);
  }

  lemma {:induction false} WriteMany(s: Setup, n: nat) returns (events: seq<Event>, w: World)
    requires SetupOk(s)
    ensures Proceeds(Opening(s), events, w) && |events| == n && |w.wire| == n && w.responder.None?
    ensures w.initiator.ratchet.chainSend.Some? && w.initiator.ratchet.nSend == n
    ensures n > 0 ==> w.wire[n - 1].message.header.n == n - 1
  {
    if n == 0 {
      events, w := [], Opening(s);
    } else {
      var past, mid := WriteMany(s, n - 1);
      var e := Write(Initiator, []);
      events, w := past + [e], Proceed(mid, e);
      ProceedsThen(Opening(s), past, mid, e);
    }
  }

  lemma {:induction false} ProceedsThen(w: World, events: seq<Event>, mid: World, e: Event)
    requires Proceeds(w, events, mid) && Permitted(mid, e)
    ensures Proceeds(w, events + [e], Proceed(mid, e))
    decreases |events|
  {
    hide Proceed, Permitted;
    if events == [] {
      assert Proceeds(Proceed(mid, e), [e][1..], Proceed(mid, e));
      assert events + [e] == [e];
    } else {
      ProceedsThen(Proceed(w, events[0]), events[1..], mid, e);
      assert (events + [e])[1..] == events[1..] + [e];
    }
  }

  lemma {:induction false} TooLate(s: Setup, w: World, j: nat)
    requires SetupOk(s) && WorldOk(s, w) && j < |w.wire| && w.responder.None?
    requires w.wire[j].message.header.n > MAX_SKIP
    ensures var (after, r) := Receipt(w, j);
            && r == Err(DecryptFailed)
            && (s.oneTime.None? ==> after == w)
            && (s.oneTime.Some? ==> forall k: nat :: k < |w.wire| ==> Receipt(after, k).1 == Err(UnknownPrekey))
  {
    hide RespondSession;
    var m := w.wire[j].message;
    forall k: nat | k < |w.wire|
      ensures s.oneTime.Some? ==> Receipt(Receipt(w, j).0, k).1 == Err(UnknownPrekey)
    {
      var m' := w.wire[k].message;
      LateFirstMessageIsFatal(s, m.header, m.ct, m'.header, m'.ct, w.nextSecret, w.nextSecret);
    }
    LateFirstMessageIsFatal(s, m.header, m.ct, m.header, m.ct, w.nextSecret, w.nextSecret);
  }
}
