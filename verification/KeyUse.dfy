/**
 How often a message key is used, whatever arrives from the network. Sealing: across both ends
 no key, and so no AEAD key or nonce, is used twice. Opening: at one end no key is tried twice,
 as long as no call would tear a skip; `Torn` says what a torn skip changes.
 */
module KeyUse {
  import opened Results
  import opened KeySchedule
  import opened Ratchet
  import opened CacheLimit
  import opened Conversation

  // ------------------------------------------------------------------ sealing

  /** What a session's two ends do; headers, ciphertexts and drawn secrets are arbitrary. */
  datatype Action =
    | Seal(who: Party, text: Bytes, prefix: Prefix)
    | Open(who: Party, header: Header, ct: Packet, prefix: Prefix, drawn: nat)

  /** Both ends and, in order, every ciphertext either has produced. */
  datatype Pair = Pair(initiator: State, responder: State, output: seq<(Party, Packet)>) {
    function End(who: Party): State {
      if who == Initiator then initiator else responder
    }

    function WithEnd(who: Party, r: State): Pair {
      if who == Initiator then this.(initiator := r) else this.(responder := r)
    }
  }

  function Act(s: Pair, a: Action): Pair {
    match a
    case Seal(who, text, prefix) =>
      var enc := Encrypt(s.End(who), text, prefix);
      var next := s.WithEnd(who, enc.after);
      if enc.result.Ok? then next.(output := s.output + [(who, enc.result.value.1)]) else next
    case Open(who, header, ct, prefix, drawn) =>
      s.WithEnd(who, Decrypt(s.End(who), header, ct, prefix, drawn).after)
  }

  function ActAll(s: Pair, actions: seq<Action>): Pair
    decreases |actions|
  {
    if actions == [] then s else ActAll(Act(s, actions[0]), actions[1..])
  }

  /** `k` was made before the chain key with `depth` root steps and `index` symmetric steps. */
  predicate Earlier(k: Key, depth: nat, index: nat) {
    Depth(k) < depth || (Depth(k) == depth && Index(k) < index)
  }

  /** The initiator's sending chains start at odd root depths, the responder's at even ones. */
  function Parity(who: Party): nat {
    if who == Initiator then 1 else 0
  }

  predicate SendingOk(r: State, who: Party) {
    && Depth(r.rootKey) % 2 == Parity(who)
    && (r.chainSend.Some? ==>
          Depth(r.chainSend.value) == Depth(r.rootKey) && Index(r.chainSend.value) == r.nSend)
    && (r.chainSend.None? ==> r.nSend == 0)
  }

  function KeyOf(ct: Packet): Key
    requires ct.Sealed? && ct.material.key.ExpandedKey?
  {
    ct.material.key.mk
  }

  predicate MadeBy(ct: Packet, r: State, who: Party) {
    && ct.Sealed? && ct.material.key.ExpandedKey? && ct.material == MessageMaterial(KeyOf(ct))
    && Depth(KeyOf(ct)) % 2 == Parity(who)
    && Earlier(KeyOf(ct), Depth(r.rootKey), r.nSend)
  }

  ghost predicate SealInv(s: Pair) {
    && SendingOk(s.initiator, Initiator) && SendingOk(s.responder, Responder)
    && (forall i :: 0 <= i < |s.output| ==> MadeBy(s.output[i].1, s.End(s.output[i].0), s.output[i].0))
    && (forall i, j :: 0 <= i < j < |s.output| ==> KeyOf(s.output[i].1) != KeyOf(s.output[j].1))
  }

  /** Decryption, on any input, leaves the sending chain alone or replaces it by the start of
      a chain two root steps deeper. */
  lemma {:induction false} DecryptAndSending(r: State, header: Header, ct: Packet, prefix: Prefix, drawn: nat)
    ensures var after := Decrypt(r, header, ct, prefix, drawn).after;
            || (after.rootKey == r.rootKey && after.chainSend == r.chainSend && after.nSend == r.nSend)
            || (&& Depth(after.rootKey) == Depth(r.rootKey) + 2 && after.nSend == 0
                && after.chainSend.Some? && Depth(after.chainSend.value) == Depth(after.rootKey)
                && Index(after.chainSend.value) == 0)
  {
    if (header.dhPub, header.n) !in r.skipped && r.dhRemote != Some(header.dhPub) {
      var skipped := SkipMessageKeys(r, header.pn).after;
      DhRatchetSending(skipped, header.dhPub, drawn);
    }
  }

  lemma {:induction false} DhRatchetSending(r: State, remotePub: nat, drawn: nat)
    ensures var after := DhRatchet(r, remotePub, drawn);
            && Depth(after.rootKey) == Depth(r.rootKey) + 2 && after.nSend == 0
            && after.chainSend.Some? && Depth(after.chainSend.value) == Depth(after.rootKey)
            && Index(after.chainSend.value) == 0
  {
    var root1 := Root(r.rootKey, Dh(r.dhSelf, remotePub));
    assert Depth(root1) == Depth(r.rootKey) + 1;
    assert Depth(Root(root1, Dh(drawn, remotePub))) == Depth(root1) + 1;
  }

  lemma {:induction false} ActKeepsSealInv(s: Pair, a: Action)
    requires SealInv(s)
    ensures SealInv(Act(s, a))
  {
    match a
    case Seal(who, text, prefix) => SealKeepsInv(s, who, text, prefix);
    case Open(who, header, ct, prefix, drawn) =>
      DecryptAndSending(s.End(who), header, ct, prefix, drawn);
      OpenKeepsInv(s, who, Decrypt(s.End(who), header, ct, prefix, drawn).after);
  }

  lemma {:induction false} SealKeepsInv(s: Pair, who: Party, text: Bytes, prefix: Prefix)
    requires SealInv(s)
    ensures SealInv(Act(s, Seal(who, text, prefix)))
  {
    var r := s.End(who);
    var after := Act(s, Seal(who, text, prefix));
    if r.chainSend.Some? {
      var made := Encrypt(r, text, prefix).result.value.1;
      assert MadeBy(made, after.End(who), who) && KeyOf(made) == MessageKey(r.chainSend.value);
      forall i | 0 <= i < |s.output|
        ensures MadeBy(s.output[i].1, after.End(s.output[i].0), s.output[i].0)
        ensures KeyOf(s.output[i].1) != KeyOf(made)
      {
        assert MadeBy(s.output[i].1, s.End(s.output[i].0), s.output[i].0);
      }
    }
  }

  lemma {:induction false} OpenKeepsInv(s: Pair, who: Party, after: State)
    requires SealInv(s)
    requires var r := s.End(who);
             || (after.rootKey == r.rootKey && after.chainSend == r.chainSend && after.nSend == r.nSend)
             || (&& Depth(after.rootKey) == Depth(r.rootKey) + 2 && after.nSend == 0
                 && after.chainSend.Some? && Depth(after.chainSend.value) == Depth(after.rootKey)
                 && Index(after.chainSend.value) == 0)
    ensures SealInv(s.WithEnd(who, after))
  {
    var next := s.WithEnd(who, after);
    forall i | 0 <= i < |s.output|
      ensures MadeBy(s.output[i].1, next.End(s.output[i].0), s.output[i].0)
    {
      assert MadeBy(s.output[i].1, s.End(s.output[i].0), s.output[i].0);
    }
  }

  lemma {:induction false} ActAllKeepsSealInv(s: Pair, actions: seq<Action>)
    requires SealInv(s)
    ensures SealInv(ActAll(s, actions))
    decreases |actions|
  {
    if actions == [] {
    } else {
      ActKeepsSealInv(s, actions[0]);
      ActAllKeepsSealInv(Act(s, actions[0]), actions[1..]);
    }
  }

  /** Over a whole session no AEAD key and no nonce is used for two ciphertexts, by either end
      or across the ends, even when the two ends hold different handshake secrets. */
  lemma {:induction false} NoKeyOrNonceRepeats(seedI: seq<Ikm>, seedR: seq<Ikm>, remotePub: nat, ephemeral: nat,
                                               signedPrekey: nat,
                                               actions: seq<Action>)
    ensures var start := Pair(InitInitiator(Seed(seedI), remotePub, ephemeral),
                              InitResponder(Seed(seedR), signedPrekey), []);
            var output := ActAll(start, actions).output;
            forall i, j :: 0 <= i < j < |output| ==>
              && output[i].1.Sealed? && output[j].1.Sealed?
              && output[i].1.material.key != output[j].1.material.key
              && output[i].1.material.nonce != output[j].1.material.nonce
  {
    var start := Pair(InitInitiator(Seed(seedI), remotePub, ephemeral),
                      InitResponder(Seed(seedR), signedPrekey), []);
    ActAllKeepsSealInv(start, actions);
  }

  // ------------------------------------------------------------------ opening

  /** One call of `aead_open` made by `decrypt`. */
  datatype Call = Call(key: Key, ct: Packet, ok: bool)

  datatype Receiver = Receiver(r: State, calls: seq<Call>)

  datatype Input =
    | Outgoing(text: Bytes, prefix: Prefix)
    | Incoming(header: Header, ct: Packet, prefix: Prefix, drawn: nat)

  function Receive(s: Receiver, x: Input): Receiver {
    match x
    case Outgoing(text, prefix) => s.(r := Encrypt(s.r, text, prefix).after)
    case Incoming(header, ct, prefix, drawn) =>
      var att := Decrypt(s.r, header, ct, prefix, drawn);
      Receiver(att.after, s.calls + if att.key.Some? then [Call(att.key.value, ct, att.result.Ok?)] else [])
  }

  /** Decided by the state and the header, before the call. */
  predicate Tears(r: State, x: Input) {
    x.Incoming? && WouldTear(r, x.header)
  }

  /** From `s`, the inputs `xs` lead to `last` without a torn skip. */
  ghost predicate Receives(s: Receiver, xs: seq<Input>, last: Receiver)
    decreases |xs|
  {
    if xs == [] then s == last else !Tears(s.r, xs[0]) && Receives(Receive(s, xs[0]), xs[1..], last)
  }

  /** Cached keys are earlier than the chain, pairwise distinct, and have never been tried. */
  ghost predicate Stock(skipped: map<Slot, Key>, used: set<Key>, depth: nat, index: nat) {
    && (forall s :: s in skipped ==> Earlier(skipped[s], depth, index) && skipped[s] !in used)
    && (forall s: Slot, t: Slot {:trigger skipped[s], skipped[t]} ::
          s in skipped && t in skipped && s != t ==> skipped[s] != skipped[t])
    && (forall k :: k in used ==> Earlier(k, depth, index))
  }

  ghost predicate ReceivingOk(r: State, used: set<Key>) {
    match r.chainRecv
    case None => r.skipped == map[] && used == {}
    case Some(ck) =>
      && Depth(ck) + 1 == Depth(r.rootKey) && Index(ck) == r.nRecv
      && Stock(r.skipped, used, Depth(ck), r.nRecv)
  }

  function Used(calls: seq<Call>): set<Key> {
    set i | 0 <= i < |calls| :: calls[i].key
  }

  ghost predicate OpenInv(s: Receiver) {
    && ReceivingOk(s.r, Used(s.calls))
    && (forall i, j :: 0 <= i < j < |s.calls| ==> s.calls[i].key != s.calls[j].key)
    && (forall i :: 0 <= i < |s.calls| && s.calls[i].ok ==>
          s.calls[i].ct.Sealed? && s.calls[i].ct.material == MessageMaterial(s.calls[i].key))
  }

  lemma {:induction false} SkipLoopStock(skipped: map<Slot, Key>, remote: nat, ck: Key, n: nat, until: nat,
                                         used: set<Key>)
    requires n <= until && Index(ck) == n && Stock(skipped, used, Depth(ck), n)
    ensures var loop := SkipLoop(skipped, remote, ck, n, until);
            && n <= loop.n && Stock(loop.skipped, used, Depth(ck), loop.n)
            && Depth(loop.ck) == Depth(ck) && Index(loop.ck) == loop.n
            && (loop.n == n ==> loop.skipped == skipped)
    decreases until - n
  {
    hide Stock;
    if n < until && |skipped| < MAX_SKIPPED_CACHE {
      StockStep(skipped, (remote, n), ck, used);
      SkipLoopStock(skipped[(remote, n) := MessageKey(ck)], remote, NextChain(ck), n + 1, until, used);
    }
  }

  lemma {:induction false} StockStep(skipped: map<Slot, Key>, slot: Slot, ck: Key, used: set<Key>)
    requires Stock(skipped, used, Depth(ck), Index(ck))
    ensures Stock(skipped[slot := MessageKey(ck)], used, Depth(ck), Index(ck) + 1)
  {
  }

  lemma {:induction false} SkipKeepsReceiving(r: State, until: nat, used: set<Key>)
    requires ReceivingOk(r, used) && SkipMessageKeys(r, until).ending != Torn
    ensures ReceivingOk(SkipMessageKeys(r, until).after, used)
    ensures SkipMessageKeys(r, until).after.rootKey == r.rootKey
  {
    if r.chainRecv.Some? && r.nRecv <= until && until - r.nRecv <= MAX_SKIP && r.dhRemote.Some? {
      SkipLoopStock(r.skipped, r.dhRemote.value, r.chainRecv.value, r.nRecv, until, used);
    }
  }

  lemma {:induction false} AlignKeepsReceiving(r: State, header: Header, drawn: nat, used: set<Key>)
    requires ReceivingOk(r, used) && Align(r, header, drawn).ending != Torn
    ensures ReceivingOk(Align(r, header, drawn).after, used)
  {
    var followed := FollowHeader(r, header, drawn);
    if r.dhRemote != Some(header.dhPub) {
      SkipKeepsReceiving(r, header.pn, used);
    }
    if followed.ending == Completed {
      assert ReceivingOk(followed.after, used);
      SkipKeepsReceiving(followed.after, header.n, used);
    }
  }

  lemma {:induction false} UsedGrows(calls: seq<Call>, call: Call)
    ensures Used(calls + [call]) == Used(calls) + {call.key}
  {
    assert forall i :: 0 <= i < |calls| ==> (calls + [call])[i] == calls[i];
    assert (calls + [call])[|calls|] == call;
  }

  lemma {:induction false} IncomingKeepsReceiving(r: State, header: Header, ct: Packet, prefix: Prefix, drawn: nat,
                                                  used: set<Key>)
    requires ReceivingOk(r, used) && !Decrypt(r, header, ct, prefix, drawn).torn
    ensures var att := Decrypt(r, header, ct, prefix, drawn);
            && (att.key.None? ==> ReceivingOk(att.after, used) && att.result.Err?)
            && (att.key.Some? ==> att.key.value !in used && ReceivingOk(att.after, used + {att.key.value}))
            && (att.result.Ok? ==> ct.Sealed? && ct.material == MessageMaterial(att.key.value))
  {
    var slot := (header.dhPub, header.n);
    if slot in r.skipped {
    } else {
      AlignKeepsReceiving(r, header, drawn, used);
      hide Align;
      var aligned := Align(r, header, drawn);
      if aligned.ending == Completed && aligned.after.chainRecv.Some? {
        TryNext(aligned.after, used);
      }
    }
  }

  lemma {:induction false} TryNext(r: State, used: set<Key>)
    requires ReceivingOk(r, used) && r.chainRecv.Some?
    ensures MessageKey(r.chainRecv.value) !in used
    ensures ReceivingOk(Opened(r), used + {MessageKey(r.chainRecv.value)})
  {
  }

  lemma {:induction false} ReceiveKeepsOpenInv(s: Receiver, x: Input)
    requires OpenInv(s) && !Tears(s.r, x)
    ensures OpenInv(Receive(s, x))
  {
    match x
    case Outgoing(text, prefix) =>
    case Incoming(header, ct, prefix, drawn) =>
      hide Decrypt, WouldTear;
      TearsExactly(s.r, header, ct, prefix, drawn);
      var att := Decrypt(s.r, header, ct, prefix, drawn);
      IncomingKeepsReceiving(s.r, header, ct, prefix, drawn, Used(s.calls));
      if att.key.Some? {
        UsedGrows(s.calls, Call(att.key.value, ct, att.result.Ok?));
        assert forall i :: 0 <= i < |s.calls| ==> s.calls[i].key in Used(s.calls);
      } else {
        assert s.calls + [] == s.calls;
      }
  }

  lemma {:induction false} ReceivesKeepOpenInv(s: Receiver, xs: seq<Input>, last: Receiver)
    requires OpenInv(s) && Receives(s, xs, last)
    ensures OpenInv(last)
    decreases |xs|
  {
    if xs == [] {
    } else {
      ReceiveKeepsOpenInv(s, xs[0]);
      ReceivesKeepOpenInv(Receive(s, xs[0]), xs[1..], last);
    }
  }

  /** As long as no call would tear a skip, no message key is tried on two ciphertexts, so no ciphertext is
      accepted twice, whatever headers and ciphertexts the network delivers. */
  lemma {:induction false} NoKeyTriedTwice(start: State, root: Key, remotePub: nat, secret: nat, xs: seq<Input>,
                                           last: Receiver)
    requires start == InitInitiator(root, remotePub, secret) || start == InitResponder(root, secret)
    requires Receives(Receiver(start, []), xs, last)
    ensures forall i, j :: 0 <= i < j < |last.calls| ==>
              && last.calls[i].key != last.calls[j].key
              && !(last.calls[i].ok && last.calls[j].ok && last.calls[i].ct == last.calls[j].ct)
  {
    ReceivesKeepOpenInv(Receiver(start, []), xs, last);
  }
}
