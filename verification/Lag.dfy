/**
 A chain that lags behind its counter, as a torn skip leaves it. A message whose key is not cached is
 met with the lagging chain's next key, so it decrypts when its own turn comes and at no other time.
 The lag lasts for as long as the end stays in the chain.
 */
module Lag {
  import opened Results
  import opened KeySchedule
  import opened Ratchet
  import opened CacheLimit
  import opened Conversation
  import opened KeyUse
  import opened Torn

  /** The chain that started as `base` is about to yield key `m`, the counter is further on. */
  predicate Lags(r: State, base: Key, m: nat) {
    r.dhRemote.Some? && r.chainRecv == Some(Advance(base, m)) && m < r.nRecv
  }

  lemma {:induction false} LoopAdvances(skipped: map<Slot, Key>, remote: nat, base: Key, m: nat, n: nat, until: nat)
    requires n <= until && SkipLoop(skipped, remote, Advance(base, m), n, until).done
    ensures SkipLoop(skipped, remote, Advance(base, m), n, until).ck == Advance(base, m + until - n)
    decreases until - n
  {
    if n < until {
      assert NextChain(Advance(base, m)) == Advance(base, m + 1);
      LoopAdvances(skipped[(remote, n) := MessageKey(Advance(base, m))], remote, base, m + 1, n + 1, until);
    }
  }

  /** A completed skip moves counter and chain on by the same amount. */
  lemma {:induction false} SkipAdvances(r: State, base: Key, m: nat, until: nat)
    requires r.chainRecv == Some(Advance(base, m))
    ensures var skip := SkipMessageKeys(r, until);
            && skip.after.dhRemote == r.dhRemote && r.nRecv <= skip.after.nRecv
            && (skip.ending == Completed ==>
                  skip.after.chainRecv == Some(Advance(base, m + skip.after.nRecv - r.nRecv)))
            && (skip.ending != Completed ==> skip.after.chainRecv == r.chainRecv)
  {
    if r.dhRemote.Some? && r.nRecv <= until {
      LoopEnds(r.skipped, r.dhRemote.value, Advance(base, m), r.nRecv, until);
      if SkipLoop(r.skipped, r.dhRemote.value, Advance(base, m), r.nRecv, until).done {
        LoopAdvances(r.skipped, r.dhRemote.value, base, m, r.nRecv, until);
      }
    }
  }

  function Genuine(base: Key, header: Header, text: Bytes, prefix: Prefix): Packet {
    AeadSeal(MessageKey(Advance(base, header.n)), text, AssociatedData(prefix, header))
  }

  /** When a message of a lagging chain decrypts: from the cache if its own key is there, and
      otherwise if and only if its number is the chain's. */
  lemma {:induction false} LaggingOpensExactly(r: State, base: Key, m: nat, header: Header, text: Bytes,
                                               prefix: Prefix, drawn: nat)
    requires Lags(r, base, m) && r.dhRemote == Some(header.dhPub)
    ensures var slot := (header.dhPub, header.n);
            var opens := if slot in r.skipped then r.skipped[slot] == MessageKey(Advance(base, header.n))
                         else header.n == m;
            Decrypt(r, header, Genuine(base, header, text, prefix), prefix, drawn).result ==
            if opens then Ok(text) else Err(DecryptFailed)
  {
    if (header.dhPub, header.n) !in r.skipped {
      hide SkipMessageKeys;
      SkipAdvances(r, base, m, header.n);
      SkipReaches(r, header.n);
      var skip := SkipMessageKeys(r, header.n);
      if skip.ending == Completed {
        var at := m + skip.after.nRecv - r.nRecv;
        assert Index(Advance(base, at)) == Index(base) + at;
        assert Index(Advance(base, header.n)) == Index(base) + header.n;
      }
    }
  }

  lemma {:induction false} SkipReaches(r: State, until: nat)
    requires r.chainRecv.Some?
    ensures until < r.nRecv ==> SkipMessageKeys(r, until) == Skip(r, Completed)
    ensures var skip := SkipMessageKeys(r, until);
            r.nRecv <= until && skip.ending == Completed ==> skip.after.nRecv == until
  {
    SkipEnds(r, until);
  }

  /** Whatever arrives under the chain's ratchet key, the lag stays and the chain never goes back. */
  lemma {:induction false} LagStays(r: State, base: Key, m: nat, header: Header, ct: Packet, prefix: Prefix, drawn: nat)
    returns (next: nat)
    requires Lags(r, base, m) && r.dhRemote == Some(header.dhPub)
    ensures var after := Decrypt(r, header, ct, prefix, drawn).after;
            Lags(after, base, next) && m <= next && after.dhRemote == r.dhRemote
  {
    next := m;
    if (header.dhPub, header.n) !in r.skipped {
      hide SkipMessageKeys;
      SkipAdvances(r, base, m, header.n);
      var skip := SkipMessageKeys(r, header.n);
      if skip.ending == Completed {
        next := m + skip.after.nRecv - r.nRecv + 1;
        assert Advance(base, next) == NextChain(skip.after.chainRecv.value);
      }
    }
  }

  /** An uncached number that needs no skip costs the chain one key, whatever the packet holds. */
  lemma {:induction false} LagStep(r: State, base: Key, m: nat, header: Header, ct: Packet, prefix: Prefix, drawn: nat)
    requires Lags(r, base, m) && r.dhRemote == Some(header.dhPub)
    requires (header.dhPub, header.n) !in r.skipped && header.n <= r.nRecv
    ensures var after := Decrypt(r, header, ct, prefix, drawn).after;
            after == r.(chainRecv := Some(Advance(base, m + 1)), nRecv := r.nRecv + 1)
  {
    assert SkipMessageKeys(r, header.n) == Skip(r, Completed);
  }

  lemma {:induction false} AdvanceInjective(a: Key, b: Key, m: nat)
    requires Advance(a, m) == Advance(b, m)
    ensures a == b
  {
    if m > 0 {
      AdvanceInjective(a, b, m - 1);
    }
  }

  /** The start of the chain is determined. */
  lemma {:induction false} LagsAlike(r: State, a: Key, m: nat, b: Key, n: nat)
    requires Lags(r, a, m) && Lags(r, b, n) && Index(a) == Index(b)
    ensures a == b && m == n
  {
    assert m == n;
    AdvanceInjective(a, b, m);
  }

  /** Nothing among `xs` arrives under another ratchet key than `d`. */
  ghost predicate StaysIn(xs: seq<Input>, d: nat) {
    forall x :: x in xs && x.Incoming? ==> x.header.dhPub == d
  }

  lemma {:induction false} LagLasts(r: State, base: Key, m: nat, xs: seq<Input>) returns (next: nat)
    requires Lags(r, base, m) && StaysIn(xs, r.dhRemote.value)
    ensures var after := Later(r, xs);
            Lags(after, base, next) && m <= next && after.dhRemote == r.dhRemote
    decreases |xs|
  {
    hide Decrypt;
    if xs == [] {
      next := m;
    } else {
      assert xs[0] in xs && forall x :: x in xs[1..] ==> x in xs;
      next := LagThrough(r, base, m, xs[0]);
      next := LagLasts(Receive(Receiver(r, []), xs[0]).r, base, next, xs[1..]);
    }
  }

  lemma {:induction false} LagThrough(r: State, base: Key, m: nat, x: Input) returns (next: nat)
    requires Lags(r, base, m) && (x.Incoming? ==> r.dhRemote == Some(x.header.dhPub))
    ensures var after := Receive(Receiver(r, []), x).r;
            Lags(after, base, next) && m <= next && after.dhRemote == r.dhRemote
  {
    match x
    case Outgoing(_, _) => next := m;
    case Incoming(header, ct, prefix, drawn) => next := LagStays(r, base, m, header, ct, prefix, drawn);
  }

  // ------------------------------------------------------------------ honest runs

  /** In a run of two honest ends, let delivering message `j` tear. From then on, whatever arrives
      under the torn chain's ratchet key, a message of that chain whose key is not cached decrypts
      if and only if its number is the one the lagging chain has come to. */
  lemma {:induction false} TornRunOpensExactly(root: Key, signedPrekey: nat, prefix: Prefix, nextSecret: nat,
                                               events: seq<Event>, c: Conv, j: nat, k: nat, xs: seq<Input>, drawn: nat)
    requires signedPrekey < nextSecret && Run(Start(root, signedPrekey, prefix, nextSecret), events, c)
    requires j < |c.sent| && j !in c.decrypted && WouldTear(c.End(Peer(c.sent[j].from)), c.sent[j].header)
    requires k < |c.sent| && c.sent[k].from == c.sent[j].from
    requires Attempted(c, j).after.dhRemote == Some(c.sent[k].header.dhPub) && StaysIn(xs, c.sent[k].header.dhPub)
    ensures var m, r := c.sent[k], Later(Attempted(c, j).after, xs);
            && r.chainRecv.Some? && Index(r.chainRecv.value) < r.nRecv
            && (m.Slot() !in r.skipped ==>
                  Decrypt(r, m.header, m.ct, c.prefix, drawn).result ==
                  if m.header.n == Index(r.chainRecv.value) then Ok(m.text) else Err(DecryptFailed))
  {
    hide Run, WouldTear, Decrypt, Lags, Attempted, Later;
    var base, n, _ := TornRunLags(root, signedPrekey, prefix, nextSecret, events, c, j, k);
    var m := c.sent[k];
    n := LagLasts(Attempted(c, j).after, base, n, xs);
    var r := Later(Attempted(c, j).after, xs);
    LagIndex(r, base, n);
    LaggingOpensExactly(r, base, n, m.header, m.text, c.prefix, drawn);
  }

  /** So right after the torn delivery every message numbered from the counter on fails. */
  lemma {:induction false} TornRunLosesMessages(root: Key, signedPrekey: nat, prefix: Prefix, nextSecret: nat,
                                                events: seq<Event>, c: Conv, j: nat, k: nat, drawn: nat)
    requires signedPrekey < nextSecret && Run(Start(root, signedPrekey, prefix, nextSecret), events, c)
    requires j < |c.sent| && j !in c.decrypted && WouldTear(c.End(Peer(c.sent[j].from)), c.sent[j].header)
    requires k < |c.sent| && c.sent[k].from == c.sent[j].from
    requires var torn := Attempted(c, j).after;
             torn.dhRemote == Some(c.sent[k].header.dhPub) && torn.nRecv <= c.sent[k].header.n
    ensures Decrypt(Attempted(c, j).after, c.sent[k].header, c.sent[k].ct, c.prefix, drawn).result == Err(DecryptFailed)
  {
    hide Run, WouldTear, Decrypt, Attempted;
    var _, _, _ := TornRunLags(root, signedPrekey, prefix, nextSecret, events, c, j, k);
    TornRunOpensExactly(root, signedPrekey, prefix, nextSecret, events, c, j, k, [], drawn);
  }

  lemma {:induction false} LagIndex(r: State, base: Key, m: nat)
    requires Lags(r, base, m) && Index(base) == 0
    ensures r.chainRecv.Some? && Index(r.chainRecv.value) == m < r.nRecv
  {
  }

  /** The state a torn delivery of a run leaves lags, behind the sender's own chain. */
  lemma {:induction false} TornRunLags(root: Key, signedPrekey: nat, prefix: Prefix, nextSecret: nat,
                                       events: seq<Event>, c: Conv, j: nat, k: nat)
    returns (base: Key, m: nat, before: State)
    requires signedPrekey < nextSecret && Run(Start(root, signedPrekey, prefix, nextSecret), events, c)
    requires j < |c.sent| && j !in c.decrypted && WouldTear(c.End(Peer(c.sent[j].from)), c.sent[j].header)
    requires k < |c.sent| && c.sent[k].from == c.sent[j].from
    requires Attempted(c, j).after.dhRemote == Some(c.sent[k].header.dhPub)
    ensures Lags(Attempted(c, j).after, base, m) && Index(base) == 0
    ensures c.sent[k].ct == Genuine(base, c.sent[k].header, c.sent[k].text, c.prefix)
    ensures Attempted(c, j).after.nRecv <= c.sent[k].header.n ==> c.sent[k].Slot() !in Attempted(c, j).after.skipped
    ensures before.nRecv == m
  {
    hide Inv, Run, WouldTear, Decrypt, SkipTears, SkipMessageKeys;
    StartOk(root, signedPrekey, prefix, nextSecret);
    var h := RunKeepsInv(Start(root, signedPrekey, prefix, nextSecret),
                         StartHistory(root, signedPrekey, nextSecret), events, c);
    var who := Peer(c.sent[j].from);
    var until: nat;
    before, until := TornCall(c.End(who), c.sent[j].header, c.sent[j].ct, c.prefix, c.nextSecret);
    TornSkip(before, until);
    base := ChainStarts(c, h, j, before, k);
    m := before.nRecv;
  }

  /** The state in which a run's delivery tears is in order, so message `k` of its chain is sealed with
      that chain's key and, if not reached yet, not cached. */
  lemma {:induction false} ChainStarts(c: Conv, h: History, j: nat, before: State, k: nat) returns (base: Key)
    requires Inv(c, h) && j < |c.sent| && j !in c.decrypted && k < |c.sent| && c.sent[k].from == c.sent[j].from
    requires var r, header := c.End(Peer(c.sent[j].from)), c.sent[j].header;
             || before == r
             || (r.dhRemote != Some(header.dhPub) && (header.dhPub, header.n) !in r.skipped
                 && FollowHeader(r, header, c.nextSecret) == Skip(before, Completed))
    requires before.chainRecv.Some? && before.dhRemote == Some(c.sent[k].header.dhPub)
    ensures before.chainRecv == Some(Advance(base, before.nRecv)) && Index(base) == 0
    ensures var m := c.sent[k];
            && (before.nRecv <= m.header.n ==> m.Slot() !in before.skipped)
            && m.ct == AeadSeal(MessageKey(Advance(base, m.header.n)), m.text, AssociatedData(c.prefix, m.header))
  {
    hide Inv, FollowHeader;
    var g, p := StandsInOrder(c, h, j, before);
    base := ChainOf(c, h, k);
    hide SentOk, Distinct, EndOk;
    InOrder(before, g, p, Done(c), h.at[k], c.sent[k].header.n, base);
  }

  lemma {:induction false} ChainOf(c: Conv, h: History, k: nat) returns (base: Key)
    requires Inv(c, h) && k < |c.sent|
    ensures |h.at| == |c.sent| && 0 < h.at[k] < |h.keys| && base == ChainAt(h.root, h.keys, h.at[k])
    ensures c.sent[k].header.dhPub == h.keys[h.at[k]]
    ensures var m := c.sent[k];
            m.ct == AeadSeal(MessageKey(Advance(base, m.header.n)), m.text, AssociatedData(c.prefix, m.header))
  {
    assert SentOk(c, h, k);
    base := ChainAt(h.root, h.keys, h.at[k]);
  }

  /** `before` is in order for the history, or for the history grown by one chain. */
  lemma {:induction false} StandsInOrder(c: Conv, h: History, j: nat, before: State) returns (g: History, p: nat)
    requires Inv(c, h) && j < |c.sent| && j !in c.decrypted
    requires var r, header := c.End(Peer(c.sent[j].from)), c.sent[j].header;
             || before == r
             || (r.dhRemote != Some(header.dhPub) && (header.dhPub, header.n) !in r.skipped
                 && FollowHeader(r, header, c.nextSecret) == Skip(before, Completed))
    ensures |g.keys| == |g.count| && Distinct(g.keys) && EndOk(before, g, p, Done(c))
    ensures |h.keys| <= |g.keys| && forall k: nat :: 0 < k < |h.keys| ==>
              g.keys[k] == h.keys[k] && ChainAt(g.root, g.keys, k) == ChainAt(h.root, h.keys, k)
  {
    hide Inv, FollowHeader, EndOk, Distinct;
    var m, who := c.sent[j], Peer(c.sent[j].from);
    ReceiverInOrder(c, h, j);
    if before == c.End(who) {
      g, p := h, h.Position(who);
    } else {
      g, p := h.Grow(c.nextSecret), h.Position(who) + 2;
      FollowedInOrder(c.End(who), h, h.Position(who), Done(c), h.at[j], m.header, before, c.nextSecret);
      GrowKeepsChains(h, c.nextSecret);
    }
  }

  lemma {:induction false} ReceiverInOrder(c: Conv, h: History, j: nat)
    requires Inv(c, h) && j < |c.sent| && j !in c.decrypted
    ensures var m, who := c.sent[j], Peer(c.sent[j].from);
            && |h.keys| == |h.count| <= h.Position(who) + 2 && Distinct(h.keys)
            && EndOk(c.End(who), h, h.Position(who), Done(c))
            && |h.at| == |c.sent| && 0 < h.at[j] < |h.keys| && h.count[0] == 0
            && h.at[j] % 2 != h.Position(who) % 2
            && m.header == HeaderAt(h, h.at[j], m.header.n) && m.header.n < h.count[h.at[j]]
            && m.Slot() !in Done(c) && c.nextSecret !in h.keys && forall n: nat :: (c.nextSecret, n) !in Done(c)
  {
    assert SentOk(c, h, j);
    UndoneSlot(c, h, j);
    DoneBelow(c, h);
    hide EndOk, TrafficOk;
  }

  lemma {:induction false} FollowedInOrder(r: State, h: History, p: nat, done: set<Slot>, k: nat, header: Header,
                                           before: State, drawn: nat)
    requires |h.keys| == |h.count| <= p + 2 && EndOk(r, h, p, done) && Distinct(h.keys)
    requires 0 < k < |h.keys| && h.count[0] == 0 && k % 2 != p % 2
    requires header == HeaderAt(h, k, header.n) && header.n < h.count[k]
    requires (header.dhPub, header.n) !in done && (header.dhPub, header.n) !in r.skipped
    requires drawn !in h.keys && forall n: nat :: (drawn, n) !in done
    requires r.dhRemote != Some(header.dhPub) && FollowHeader(r, header, drawn) == Skip(before, Completed)
    ensures EndOk(before, h.Grow(drawn), p + 2, done) && Distinct(h.Grow(drawn).keys)
  {
    hide FollowHeader;
    FollowNext(r, h, p, done, header.n, drawn);
  }

  lemma {:induction false} InOrder(r: State, h: History, p: nat, done: set<Slot>, k: nat, n: nat, base: Key)
    requires |h.keys| == |h.count| && EndOk(r, h, p, done) && Distinct(h.keys) && 0 < k < |h.keys|
    requires r.chainRecv.Some? && r.dhRemote == Some(h.keys[k])
    requires base == ChainAt(h.root, h.keys, k)
    ensures r.chainRecv == Some(Advance(base, r.nRecv))
    ensures r.nRecv <= n ==> (h.keys[k], n) !in r.skipped
  {
    assert k == p - 1;
  }
}
