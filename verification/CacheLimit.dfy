/**
 When the cache of skipped keys runs full part-way through a skip. The answer is a condition on the
 state and the header before the call: enough of the numbers to be skipped have no key cached yet
 to use up the room that is left, but there is some room.
 */
module CacheLimit {
  import opened Results
  import opened KeySchedule
  import opened Ratchet

  /** How many of the numbers from `n` to `until` have no key cached under `remote`. */
  function Free(skipped: map<Slot, Key>, remote: nat, n: nat, until: nat): nat
    decreases until - n
  {
    if n >= until then 0
    else (if (remote, n) in skipped then 0 else 1) + Free(skipped, remote, n + 1, until)
  }

  /** A cache of `size` keys has room, but not for all free numbers from `n` to the last but one. */
  predicate Fills(skipped: map<Slot, Key>, remote: nat, n: nat, until: nat, size: nat)
    requires 0 < until
  {
    size < MAX_SKIPPED_CACHE && size + Free(skipped, remote, n, until - 1) >= MAX_SKIPPED_CACHE
  }

  predicate SkipTears(r: State, until: nat) {
    && r.chainRecv.Some? && r.dhRemote.Some? && r.nRecv < until <= r.nRecv + MAX_SKIP
    && Fills(r.skipped, r.dhRemote.value, r.nRecv, until, |r.skipped|)
  }

  predicate SkipCompletes(r: State, until: nat) {
    || r.chainRecv.None? || until < r.nRecv
    || (&& until <= r.nRecv + MAX_SKIP && r.dhRemote.Some?
        && (until == r.nRecv
            || |r.skipped| + Free(r.skipped, r.dhRemote.value, r.nRecv, until - 1) < MAX_SKIPPED_CACHE))
  }

  /** How many keys a completed skip adds. */
  function Added(r: State, until: nat): nat {
    if r.chainRecv.None? || r.dhRemote.None? then 0 else Free(r.skipped, r.dhRemote.value, r.nRecv, until)
  }

  /** Decrypting a message with this header would take the cache-full return part-way: in the
      current chain, while finishing it, or in the chain the header opens. */
  predicate WouldTear(r: State, header: Header) {
    && (header.dhPub, header.n) !in r.skipped
    && if r.dhRemote == Some(header.dhPub) then SkipTears(r, header.n)
       else
         || SkipTears(r, header.pn)
         || (&& SkipCompletes(r, header.pn) && 0 < header.n <= MAX_SKIP
             && Fills(r.skipped, header.dhPub, 0, header.n, |r.skipped| + Added(r, header.pn)))
  }

  // ------------------------------------------------------------------ the condition is exact

  lemma {:induction false} FreeSame(a: map<Slot, Key>, b: map<Slot, Key>, remote: nat, n: nat, until: nat)
    requires forall i: nat :: n <= i < until ==> ((remote, i) in a <==> (remote, i) in b)
    ensures Free(a, remote, n, until) == Free(b, remote, n, until)
    decreases until - n
  {
    if n < until {
      FreeSame(a, b, remote, n + 1, until);
    }
  }

  lemma {:induction false} FreeAll(skipped: map<Slot, Key>, remote: nat, n: nat, until: nat)
    requires n <= until && forall i: nat :: n <= i < until ==> (remote, i) !in skipped
    ensures Free(skipped, remote, n, until) == until - n
    decreases until - n
  {
    if n < until {
      FreeAll(skipped, remote, n + 1, until);
    }
  }

  /** How the skip loop ends, whatever the cache holds. */
  lemma {:induction false} LoopEnds(skipped: map<Slot, Key>, remote: nat, ck: Key, n: nat, until: nat)
    requires n <= until
    ensures var loop := SkipLoop(skipped, remote, ck, n, until);
            && (loop.done <==>
                  n == until || |skipped| + Free(skipped, remote, n, until - 1) < MAX_SKIPPED_CACHE)
            && (loop.done ==> loop.n == until && |loop.skipped| == |skipped| + Free(skipped, remote, n, until))
            && (!loop.done ==> (loop.n == n <==> |skipped| >= MAX_SKIPPED_CACHE))
            && n <= loop.n <= until
            && (forall x: nat, i: nat :: x != remote ==> ((x, i) in loop.skipped <==> (x, i) in skipped))
    decreases until - n
  {
    if n < until && |skipped| < MAX_SKIPPED_CACHE {
      var more := skipped[(remote, n) := MessageKey(ck)];
      LoopEnds(more, remote, NextChain(ck), n + 1, until);
      FreeSame(more, skipped, remote, n + 1, until);
      FreeSame(more, skipped, remote, n + 1, until - 1);
    }
  }

  lemma {:induction false} SkipEnds(r: State, until: nat)
    ensures var skip := SkipMessageKeys(r, until);
            && (skip.ending == Torn <==> SkipTears(r, until))
            && (skip.ending == Completed <==> SkipCompletes(r, until))
            && (skip.ending == Completed ==> |skip.after.skipped| == |r.skipped| + Added(r, until))
            && (skip.ending == Completed && r.chainRecv.Some? && r.nRecv <= until ==> skip.after.nRecv == until)
            && (forall x: nat, i: nat :: r.dhRemote != Some(x) ==>
                  ((x, i) in skip.after.skipped <==> (x, i) in r.skipped))
  {
    if r.chainRecv.Some? && r.dhRemote.Some? && r.nRecv <= until {
      LoopEnds(r.skipped, r.dhRemote.value, r.chainRecv.value, r.nRecv, until);
    }
  }

  /** The condition is exact, for every state and every header. */
  lemma {:induction false} TearsExactly(r: State, header: Header, ct: Packet, prefix: Prefix, drawn: nat)
    ensures Decrypt(r, header, ct, prefix, drawn).torn <==> WouldTear(r, header)
  {
    hide SkipMessageKeys, SkipTears, SkipCompletes, Added;
    if r.dhRemote == Some(header.dhPub) {
      SkipEnds(r, header.n);
    } else {
      SkipEnds(r, header.pn);
      if SkipMessageKeys(r, header.pn).ending == Completed {
        NextChainTears(r, header, drawn);
      }
    }
  }

  lemma {:induction false} NextChainTears(r: State, header: Header, drawn: nat)
    requires r.dhRemote != Some(header.dhPub) && SkipMessageKeys(r, header.pn).ending == Completed
    ensures var followed := FollowHeader(r, header, drawn).after;
            SkipMessageKeys(followed, header.n).ending == Torn <==>
              && 0 < header.n <= MAX_SKIP
              && Fills(r.skipped, header.dhPub, 0, header.n, |r.skipped| + Added(r, header.pn))
  {
    hide SkipMessageKeys, Added;
    SkipEnds(r, header.pn);
    var followed := FollowHeader(r, header, drawn).after;
    SkipEnds(followed, header.n);
    if header.n > 0 {
      FreeSame(followed.skipped, r.skipped, header.dhPub, 0, header.n - 1);
    }
  }

  // ------------------------------------------------------------------ and it can be met

  /** A header with this announcement finds nothing left to skip in the chain received so far. */
  predicate NothingLeft(r: State, pn: nat) {
    r.chainRecv.Some? ==> r.dhRemote.Some? && pn <= r.nRecv
  }

  /** One packet, of whatever content, under a ratchet key not seen before: if the chain received so
      far has nothing left to skip, its number is how many keys it leaves cached. */
  lemma {:induction false} Flood(r: State, header: Header, ct: Packet, prefix: Prefix, drawn: nat)
    requires r.dhRemote != Some(header.dhPub) && NothingLeft(r, header.pn)
    requires forall i: nat :: (header.dhPub, i) !in r.skipped
    requires header.n <= MAX_SKIP && |r.skipped| + header.n <= MAX_SKIPPED_CACHE
    ensures !WouldTear(r, header)
    ensures var after := Decrypt(r, header, ct, prefix, drawn).after;
            && after.dhRemote == Some(header.dhPub) && after.chainRecv.Some? && after.nRecv == header.n + 1
            && after.dhSelf == drawn && after.chainSend.Some? && after.nSend == 0 && after.pn == r.nSend
            && |after.skipped| == |r.skipped| + header.n
            && (forall y: nat, i: nat :: y != header.dhPub ==> ((y, i) in after.skipped <==> (y, i) in r.skipped))
  {
    var followed := FollowHeader(r, header, drawn).after;
    assert followed == DhRatchet(r, header.dhPub, drawn) by {
      assert SkipMessageKeys(r, header.pn) == Skip(r, Completed);
    }
    SkipEnds(followed, header.n);
    FreeAll(r.skipped, header.dhPub, 0, header.n);
    if header.n > 0 {
      FreeAll(r.skipped, header.dhPub, 0, header.n - 1);
    }
  }
}
