/**
 What a torn skip does: the cache ran full part-way, so the counter stands ahead of the chain, and the
 chain's next key is in the cache already. `Replay` and `Lag` say what follows from either.
 */
module Torn {
  import opened Results
  import opened KeySchedule
  import opened Ratchet
  import opened CacheLimit
  import opened KeyUse

  lemma {:induction false} TornLoop(skipped: map<Slot, Key>, remote: nat, ck: Key, n: nat, until: nat)
    requires n <= until && !SkipLoop(skipped, remote, ck, n, until).done
    ensures var loop := SkipLoop(skipped, remote, ck, n, until);
            && n <= loop.n < until
            && (forall i: nat :: i < n && (remote, i) in skipped ==>
                  (remote, i) in loop.skipped && loop.skipped[(remote, i)] == skipped[(remote, i)])
            && (n < loop.n ==> (remote, n) in loop.skipped && loop.skipped[(remote, n)] == MessageKey(ck))
            && (forall i: nat :: loop.n <= i ==> ((remote, i) in loop.skipped <==> (remote, i) in skipped))
    decreases until - n
  {
    if |skipped| < MAX_SKIPPED_CACHE {
      TornLoop(skipped[(remote, n) := MessageKey(ck)], remote, NextChain(ck), n + 1, until);
    }
  }

  /** A torn skip leaves the counter ahead of the chain: the chain's next key is already cached,
      under a number the counter has moved past. Nothing further on is cached that was not. */
  lemma {:induction false} TornSkip(r: State, until: nat)
    requires SkipTears(r, until)
    ensures var after := SkipMessageKeys(r, until).after;
            && after.chainRecv == r.chainRecv && after.chainRecv.Some?
            && after.dhRemote == r.dhRemote && after.dhRemote.Some?
            && r.nRecv < after.nRecv < until
            && (after.dhRemote.value, r.nRecv) in after.skipped
            && after.skipped[(after.dhRemote.value, r.nRecv)] == MessageKey(after.chainRecv.value)
            && (forall i: nat :: after.nRecv <= i ==>
                  ((after.dhRemote.value, i) in after.skipped <==> (after.dhRemote.value, i) in r.skipped))
  {
    SkipEnds(r, until);
    TornLoop(r.skipped, r.dhRemote.value, r.chainRecv.value, r.nRecv, until);
  }

  /** A call that tears ends right after the torn skip: in the current chain or, when that was
      finished first, in the chain the header opens. */
  lemma {:induction false} TornCall(r: State, header: Header, ct: Packet, prefix: Prefix, drawn: nat)
    returns (before: State, until: nat)
    requires WouldTear(r, header)
    ensures SkipTears(before, until)
    ensures Decrypt(r, header, ct, prefix, drawn) ==
            Attempt(SkipMessageKeys(before, until).after, None, Err(DecryptFailed), true)
    ensures (header.dhPub, header.n) !in r.skipped
    ensures if r.dhRemote == Some(header.dhPub) then before == r && until == header.n
            else
              || (before == r && until == header.pn)
              || (&& FollowHeader(r, header, drawn) == Skip(before, Completed) && until == header.n)
  {
    hide SkipMessageKeys, SkipTears;
    TearsExactly(r, header, ct, prefix, drawn);
    if r.dhRemote == Some(header.dhPub) {
      before, until := r, header.n;
    } else if SkipMessageKeys(r, header.pn).ending != Completed {
      before, until := r, header.pn;
    } else {
      before, until := FollowHeader(r, header, drawn).after, header.n;
    }
    SkipEnds(before, until);
  }

  /** The state after the inputs `xs`, torn or not. */
  function Later(r: State, xs: seq<Input>): State
    decreases |xs|
  {
    if xs == [] then r else Later(Receive(Receiver(r, []), xs[0]).r, xs[1..])
  }

  // ------------------------------------------------------------------ tears happen

  /** Noise under the ratchet key `x`, numbered `n`. */
  function Noise(x: nat, n: nat, prefix: Prefix, drawn: nat): Input {
    Incoming(Header(x, 0, n), Junk([]), prefix, drawn)
  }

  /** Tears happen: five unauthenticated packets suffice. */
  lemma {:induction false} TearIsReachable(root: Key, secret: nat, prefix: Prefix, drawn: nat)
    returns (xs: seq<Input>, last: Receiver)
    ensures Receives(Receiver(InitResponder(root, secret), []), xs, last) && |xs| == 4
    ensures Tears(last.r, Noise(5, 2, prefix, drawn))
  {
    hide Decrypt, WouldTear;
    var s0 := Receiver(InitResponder(root, secret), []);
    var s1 := Receive(s0, Noise(1, 1000, prefix, drawn));
    var s2 := Receive(s1, Noise(2, 1000, prefix, drawn));
    var s3 := Receive(s2, Noise(3, 1000, prefix, drawn));
    var s4 := Receive(s3, Noise(4, 999, prefix, drawn));
    Flood(s0.r, Header(1, 0, 1000), Junk([]), prefix, drawn);
    Flood(s1.r, Header(2, 0, 1000), Junk([]), prefix, drawn);
    Flood(s2.r, Header(3, 0, 1000), Junk([]), prefix, drawn);
    Flood(s3.r, Header(4, 0, 999), Junk([]), prefix, drawn);
    xs := [Noise(1, 1000, prefix, drawn), Noise(2, 1000, prefix, drawn),
           Noise(3, 1000, prefix, drawn), Noise(4, 999, prefix, drawn)];
    last := s4;
    assert Receives(s4, xs[4..], last);
    assert xs[3..][1..] == xs[4..] && Receives(s3, xs[3..], last);
    assert xs[2..][1..] == xs[3..] && Receives(s2, xs[2..], last);
    assert xs[1..][1..] == xs[2..] && Receives(s1, xs[1..], last);
    LastStraw(s4.r, Header(5, 0, 2));
  }

  lemma {:induction false} LastStraw(r: State, header: Header)
    requires r.dhRemote != Some(header.dhPub) && NothingLeft(r, header.pn) && header.n == 2
    requires |r.skipped| == MAX_SKIPPED_CACHE - 1 && forall i: nat :: (header.dhPub, i) !in r.skipped
    ensures WouldTear(r, header)
  {
    assert Free(r.skipped, header.dhPub, 0, 1) == 1;
    assert Added(r, header.pn) == 0;
  }
}
