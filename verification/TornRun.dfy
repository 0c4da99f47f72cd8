/**
 A torn skip without any attacker: two honest ends whose network drops long stretches of messages
 fill the cache one slot short and then tear it, and the message delivered fails until its turn comes.
 */
module TornRun {
  import opened Results
  import opened KeySchedule
  import opened Ratchet
  import opened CacheLimit
  import opened Conversation
  import opened Torn
  import opened Lag

  lemma {:induction false} RunJoin(c: Conv, first: seq<Event>, mid: Conv, more: seq<Event>, last: Conv)
    requires Run(c, first, mid) && Run(mid, more, last)
    ensures Run(c, first + more, last)
    decreases |first|
  {
    hide Step, Allowed;
    if first == [] {
      assert first + more == more;
    } else {
      RunJoin(Step(c, first[0]), first[1..], mid, more, last);
      assert (first + more)[1..] == first[1..] + more;
    }
  }

  lemma {:induction false} RunThen(c: Conv, events: seq<Event>, mid: Conv, e: Event)
    requires Run(c, events, mid) && Allowed(mid, e)
    ensures Run(c, events + [e], Step(mid, e))
  {
    assert Run(Step(mid, e), [e][1..], Step(mid, e));
    RunJoin(c, events, mid, [e], Step(mid, e));
  }

  /** The initiator writes `n` messages and nothing is delivered. */
  lemma {:induction false} WriteMany(c: Conv, n: nat) returns (events: seq<Event>, last: Conv)
    requires c.initiator.chainSend.Some?
    ensures Run(c, events, last)
    ensures last == c.(initiator := last.initiator, sent := last.sent) && |last.sent| == |c.sent| + n
    ensures last.initiator.chainSend.Some?
    ensures last.initiator == c.initiator.(chainSend := last.initiator.chainSend, nSend := c.initiator.nSend + n)
    ensures forall k :: |c.sent| <= k < |last.sent| ==>
              && last.sent[k].from == Initiator
              && last.sent[k].header ==
                 Header(c.initiator.dhSelf, c.initiator.pn, c.initiator.nSend + k - |c.sent|)
  {
    if n == 0 {
      events, last := [], c;
    } else {
      var past, mid := WriteMany(c, n - 1);
      RunThen(c, past, mid, Write(Initiator, []));
      events, last := past + [Write(Initiator, [])], Step(mid, Write(Initiator, []));
    }
  }

  /** The initiator is about to open a chain the responder has not seen; each end has received the
      other's last chain to its end, and the responder's cache holds `size` keys. */
  ghost predicate Poised(c: Conv, size: nat) {
    var a, b := c.initiator, c.responder;
    && a.chainSend.Some? && a.nSend == 0 && a.skipped == map[]
    && a.dhSelf < c.nextSecret && b.dhRemote != Some(a.dhSelf)
    && NothingLeft(b, a.pn) && NothingLeft(a, b.nSend)
    && (forall i: nat :: (a.dhSelf, i) !in b.skipped)
    && (forall x: nat, i: nat :: (x, i) in b.skipped ==> x < c.nextSecret)
    && (a.dhRemote.Some? ==> a.dhRemote.value < c.nextSecret)
    && |b.skipped| == size && forall j :: j in c.decrypted ==> j < |c.sent|
  }

  /** `n` messages of a chain are lost, the next one arrives, and so does the reply. */
  lemma {:induction false} LossyRound(c: Conv, size: nat, n: nat) returns (events: seq<Event>, last: Conv)
    requires Poised(c, size) && n <= MAX_SKIP && size + n <= MAX_SKIPPED_CACHE
    ensures Run(c, events, last) && Poised(last, size + n)
  {
    hide Run, WouldTear, Decrypt, Poised;
    var written: Conv, heard: Conv, replied: Conv;
    assert c.initiator.chainSend.Some? && c.initiator.nSend == 0 by {
      PoisedSends(c, size);
    }
    events, written := WriteMany(c, n + 1);
    var j := |written.sent| - 1;
    Hear(c, size, written, n);
    heard := Step(written, Deliver(j));
    RunThen(c, events, written, Deliver(j));
    events := events + [Deliver(j)];
    RunThen(c, events, heard, Write(Responder, []));
    replied := Step(heard, Write(Responder, []));
    events := events + [Write(Responder, [])];
    HearReply(heard, replied, size + n);
    RunThen(c, events, replied, Deliver(j + 1));
    events := events + [Deliver(j + 1)];
    last := Step(replied, Deliver(j + 1));
  }

  lemma {:induction false} PoisedSends(c: Conv, size: nat)
    requires Poised(c, size)
    ensures c.initiator.chainSend.Some? && c.initiator.nSend == 0
  {
  }

  /** Between the two halves of a round: the responder has just opened a new chain. */
  ghost predicate Turned(c: Conv, size: nat) {
    var a, b := c.initiator, c.responder;
    && a.skipped == map[] && NothingLeft(a, b.pn)
    && (a.dhRemote.Some? ==> a.dhRemote.value < b.dhSelf) && b.dhSelf < c.nextSecret
    && b.chainSend.Some? && b.nSend == 0 && b.chainRecv.Some? && a.nSend <= b.nRecv
    && b.dhRemote.Some? && b.dhRemote.value < c.nextSecret
    && (forall x: nat, i: nat :: (x, i) in b.skipped ==> x < c.nextSecret)
    && |b.skipped| == size && forall j :: j in c.decrypted ==> j < |c.sent|
  }

  lemma {:induction false} Hear(c: Conv, size: nat, written: Conv, n: nat)
    requires Poised(c, size) && n <= MAX_SKIP && size + n <= MAX_SKIPPED_CACHE
    requires written == c.(initiator := written.initiator, sent := written.sent)
    requires written.initiator ==
             c.initiator.(chainSend := written.initiator.chainSend, nSend := c.initiator.nSend + n + 1)
    requires |written.sent| == |c.sent| + n + 1
    requires var m := written.sent[|written.sent| - 1];
             m.from == Initiator && m.header == Header(c.initiator.dhSelf, c.initiator.pn, n)
    ensures var j := |written.sent| - 1;
            && Allowed(written, Deliver(j)) && Turned(Step(written, Deliver(j)), size + n)
            && Step(written, Deliver(j)).sent == written.sent
  {
    hide WouldTear, Decrypt;
    var m := written.sent[|written.sent| - 1];
    Flood(c.responder, m.header, m.ct, c.prefix, c.nextSecret);
  }

  lemma {:induction false} HearReply(heard: Conv, replied: Conv, size: nat)
    requires Turned(heard, size) && replied == Step(heard, Write(Responder, []))
    ensures |replied.sent| == |heard.sent| + 1 && replied.sent[|heard.sent|].from == Responder
    ensures Allowed(replied, Deliver(|heard.sent|)) && Poised(Step(replied, Deliver(|heard.sent|)), size)
  {
    hide WouldTear, Decrypt;
    var m := replied.sent[|heard.sent|];
    Flood(replied.initiator, m.header, m.ct, replied.prefix, replied.nextSecret);
    var after := Step(replied, Deliver(|heard.sent|)).initiator;
    assert after.skipped == map[] by {
      assert |after.skipped| == 0;
    }
  }

  /** The responder's cache is one slot short of full, and three messages of a chain new to it wait. */
  lemma {:induction false} NearlyFull(root: Key, signedPrekey: nat, prefix: Prefix, nextSecret: nat)
    returns (events: seq<Event>, before: Conv, c: Conv)
    requires signedPrekey < nextSecret
    ensures Run(Start(root, signedPrekey, prefix, nextSecret), events, c) && Poised(before, MAX_SKIPPED_CACHE - 1)
    ensures c == before.(initiator := c.initiator, sent := c.sent) && |c.sent| == |before.sent| + 3
    ensures forall k :: |before.sent| <= k < |c.sent| ==>
              && c.sent[k].from == Initiator
              && c.sent[k].header == Header(before.initiator.dhSelf, before.initiator.pn, k - |before.sent|)
  {
    hide Run, Poised;
    var start := Start(root, signedPrekey, prefix, nextSecret);
    assert Poised(start, 0) by {
      StartPoised(root, signedPrekey, prefix, nextSecret);
    }
    var e1, c1 := LossyRound(start, 0, 1000);
    var e2, c2 := LossyRound(c1, 1000, 1000);
    RunJoin(start, e1, c1, e2, c2);
    var e3, c3 := LossyRound(c2, 2000, 1000);
    RunJoin(start, e1 + e2, c2, e3, c3);
    var e4, c4 := LossyRound(c3, 3000, 999);
    RunJoin(start, e1 + e2 + e3, c3, e4, c4);
    PoisedSends(c4, 3999);
    before := c4;
    var e5: seq<Event>;
    e5, c := WriteMany(c4, 3);
    events := e1 + e2 + e3 + e4 + e5;
    RunJoin(start, e1 + e2 + e3 + e4, c4, e5, c);
  }

  /** Some honest run leads to a delivery that tears. The message delivered, number 2 of its chain,
      fails although its sender wrote it. It fails again after message 1, which fails too, and
      decrypts when it is then delivered once more. */
  lemma {:induction false} HonestTear(root: Key, signedPrekey: nat, prefix: Prefix, nextSecret: nat)
    returns (events: seq<Event>, c: Conv, j: nat)
    requires signedPrekey < nextSecret
    ensures Run(Start(root, signedPrekey, prefix, nextSecret), events, c) && 0 < j < |c.sent| && j !in c.decrypted
    ensures WouldTear(c.End(Peer(c.sent[j].from)), c.sent[j].header)
    ensures Attempted(c, j).result == Err(DecryptFailed)
    ensures var first := Again(c, Attempted(c, j).after, j - 1);
            var second := Again(c, first.after, j);
            && first.result == Err(DecryptFailed) && second.result == Err(DecryptFailed)
            && Again(c, second.after, j).result == Ok(c.sent[j].text)
  {
    hide Run, WouldTear, Decrypt, Poised, Attempted, Again;
    var before: Conv;
    events, before, c := NearlyFull(root, signedPrekey, prefix, nextSecret);
    j := |c.sent| - 1;
    FullCacheTears(before, c, j);
    TornInOwnChain(c, j);
    var base, m, was := TornRunLags(root, signedPrekey, prefix, nextSecret, events, c, j, j);
    var base', m', was' := TornRunLags(root, signedPrekey, prefix, nextSecret, events, c, j, j - 1);
    LagsAlike(Attempted(c, j).after, base, m, base', m');
    ThirdTimeLucky(c, j, base);
  }

  /** Message `k` delivered to its receiver in state `r`. */
  function Again(c: Conv, r: State, k: nat): Attempt
    requires k < |c.sent|
  {
    Decrypt(r, c.sent[k].header, c.sent[k].ct, c.prefix, c.nextSecret + 1)
  }

  lemma {:induction false} StartPoised(root: Key, signedPrekey: nat, prefix: Prefix, nextSecret: nat)
    requires signedPrekey < nextSecret
    ensures Poised(Start(root, signedPrekey, prefix, nextSecret), 0)
  {
  }

  lemma {:induction false} FullCacheTears(before: Conv, c: Conv, j: nat)
    requires Poised(before, MAX_SKIPPED_CACHE - 1) && c.responder == before.responder
    requires c.decrypted == before.decrypted && |before.sent| <= j < |c.sent|
    requires c.sent[j].from == Initiator && c.sent[j].header == Header(before.initiator.dhSelf, before.initiator.pn, 2)
    ensures var r, header := c.responder, c.sent[j].header;
            && j !in c.decrypted && WouldTear(r, header)
            && r.dhRemote != Some(header.dhPub) && NothingLeft(r, header.pn)
  {
    LastStraw(c.responder, c.sent[j].header);
  }

  lemma {:induction false} TornInOwnChain(c: Conv, j: nat)
    requires j < |c.sent|
    requires var r, header := c.End(Peer(c.sent[j].from)), c.sent[j].header;
             && WouldTear(r, header) && r.dhRemote != Some(header.dhPub) && NothingLeft(r, header.pn)
             && header.n == 2
    ensures var torn := Attempted(c, j).after;
            torn.dhRemote == Some(c.sent[j].header.dhPub) && torn.nRecv == 1
    ensures Attempted(c, j).result == Err(DecryptFailed)
  {
    hide WouldTear, Decrypt;
    var r, m := c.End(Peer(c.sent[j].from)), c.sent[j];
    var before, until := TornCall(r, m.header, m.ct, c.prefix, c.nextSecret);
    TornSkip(before, until);
  }
  /** The lagging chain meets message 1 with key 0, message 2 with key 1, and message 2 with key 2. */
  lemma {:induction false} ThirdTimeLucky(c: Conv, j: nat, base: Key)
    requires 0 < j < |c.sent| && c.sent[j - 1].header.n == 1 && c.sent[j].header.n == 2
    requires var torn, d := Attempted(c, j).after, c.sent[j].header.dhPub;
             && Lags(torn, base, 0) && torn.dhRemote == Some(d) && torn.nRecv == 1
             && c.sent[j - 1].header.dhPub == d && (d, 1) !in torn.skipped && (d, 2) !in torn.skipped
    requires forall k :: j - 1 <= k <= j ==>
               c.sent[k].ct == Genuine(base, c.sent[k].header, c.sent[k].text, c.prefix)
    ensures var first := Again(c, Attempted(c, j).after, j - 1);
            var second := Again(c, first.after, j);
            && first.result == Err(DecryptFailed) && second.result == Err(DecryptFailed)
            && Again(c, second.after, j).result == Ok(c.sent[j].text)
  {
    hide Decrypt, Attempted;
    var torn, one, two, drawn := Attempted(c, j).after, c.sent[j - 1], c.sent[j], c.nextSecret + 1;
    var first := Again(c, torn, j - 1);
    LaggingOpensExactly(torn, base, 0, one.header, one.text, c.prefix, drawn);
    LagStep(torn, base, 0, one.header, one.ct, c.prefix, drawn);
    LaggingOpensExactly(first.after, base, 1, two.header, two.text, c.prefix, drawn);
    LagStep(first.after, base, 1, two.header, two.ct, c.prefix, drawn);
    LaggingOpensExactly(Again(c, first.after, j).after, base, 2, two.header, two.text, c.prefix, drawn);
  }
}
