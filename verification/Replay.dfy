/**
 Replay in every state an end can reach, by any inputs and through any number of torn skips. A packet
 can be accepted again if and only if it was opened with a cached key that the chain has still ahead
 of it. Only tears put such keys into the cache, and a new chain leaves none.
 */
module Replay {
  import opened Results
  import opened KeySchedule
  import opened Ratchet
  import opened CacheLimit
  import opened Conversation
  import opened KeyUse
  import opened Torn

  /** Each cached key is from an earlier chain or, under `d` and below `n`, from the one `base` started. */
  ghost predicate Shelved(skipped: map<Slot, Key>, d: nat, base: Key, n: nat) {
    forall s: Slot :: s in skipped ==>
      || Depth(skipped[s]) < Depth(base)
      || (s.0 == d && s.1 < n && skipped[s] == MessageKey(Advance(base, Index(skipped[s]))))
  }

  /** What holds of an end whatever it was sent. */
  ghost predicate Consistent(r: State, base: Key) {
    if r.chainRecv.None? then r.skipped == map[]
    else
      && r.dhRemote.Some? && Index(base) == 0 && Index(r.chainRecv.value) <= r.nRecv
      && r.chainRecv.value == Advance(base, Index(r.chainRecv.value))
      && Depth(base) + 1 == Depth(r.rootKey)
      && Shelved(r.skipped, r.dhRemote.value, base, r.nRecv)
  }

  /** The key cached under number `n` of the current chain is the one `t` steps ahead of the chain. */
  predicate AheadAt(r: State, n: nat, t: nat) {
    && r.chainRecv.Some? && r.dhRemote.Some? && (r.dhRemote.value, n) in r.skipped
    && r.skipped[(r.dhRemote.value, n)] == MessageKey(Advance(r.chainRecv.value, t))
  }

  ghost predicate Ahead(r: State) {
    exists n: nat, t: nat :: AheadAt(r, n, t)
  }

  /** No cached key is ahead: those of the current chain are behind it. */
  ghost predicate Behind(skipped: map<Slot, Key>, depth: nat, index: nat) {
    forall s: Slot :: s in skipped ==> Earlier(skipped[s], depth, index)
  }

  // ------------------------------------------------------------------ ahead or behind

  lemma {:induction false} AdvanceSum(base: Key, m: nat, t: nat)
    ensures Advance(base, m + t) == Advance(Advance(base, m), t)
  {
    if t > 0 {
      AdvanceSum(base, m, t - 1);
    }
  }

  lemma {:induction false} AdvanceNext(base: Key, m: nat)
    ensures NextChain(Advance(base, m)) == Advance(base, m + 1)
  {
  }

  lemma {:induction false} AheadOrBehind(r: State, base: Key)
    requires Consistent(r, base) && r.chainRecv.Some?
    ensures Ahead(r) <==> !Behind(r.skipped, Depth(base), Index(r.chainRecv.value))
  {
    var ck := r.chainRecv.value;
    forall n: nat, t: nat | AheadAt(r, n, t)
      ensures !Behind(r.skipped, Depth(base), Index(ck))
    {
      assert Depth(Advance(ck, t)) == Depth(base) && Index(Advance(ck, t)) == Index(ck) + t;
      assert !Earlier(r.skipped[(r.dhRemote.value, n)], Depth(base), Index(ck));
    }
    if !Behind(r.skipped, Depth(base), Index(ck)) {
      var s: Slot :| s in r.skipped && !Earlier(r.skipped[s], Depth(base), Index(ck));
      var j := Index(r.skipped[s]);
      assert r.skipped[s] == MessageKey(Advance(base, j));
      assert Depth(Advance(base, j)) == Depth(base);
      AdvanceSum(base, Index(ck), j - Index(ck));
      assert AheadAt(r, s.1, j - Index(ck));
    }
  }

  // ------------------------------------------------------------------ one skip

  /** `after` is `before` but for the chain's keys from `m` on, filed from number `n` on up to `last`. */
  ghost predicate Filed(before: map<Slot, Key>, after: map<Slot, Key>, d: nat, base: Key, m: nat, n: nat, last: nat) {
    forall s: Slot :: s in after ==>
      || (s in before && after[s] == before[s])
      || (s.0 == d && n <= s.1 < last && after[s] == MessageKey(Advance(base, m + s.1 - n)))
  }

  /** Each turn files the chain's key under the counter and moves both on. */
  lemma {:induction false} LoopFiles(skipped: map<Slot, Key>, d: nat, base: Key, m: nat, ck: Key, n: nat, until: nat)
    requires n <= until && ck == Advance(base, m)
    ensures var loop := SkipLoop(skipped, d, ck, n, until);
            && n <= loop.n <= until && loop.ck == Advance(base, m + loop.n - n) && (loop.done ==> loop.n == until)
            && Filed(skipped, loop.skipped, d, base, m, n, loop.n)
    decreases until - n
  {
    hide Filed, Advance;
    if n == until || |skipped| >= MAX_SKIPPED_CACHE {
      FiledNothing(skipped, d, base, m, n);
    } else {
      var more := skipped[(d, n) := MessageKey(ck)];
      var loop := SkipLoop(more, d, NextChain(ck), n + 1, until);
      assert SkipLoop(skipped, d, ck, n, until) == loop;
      hide SkipLoop;
      AdvanceNext(base, m);
      LoopFiles(more, d, base, m + 1, NextChain(ck), n + 1, until);
      FiledStep(skipped, loop.skipped, d, base, m, n, loop.n);
    }
  }

  lemma {:induction false} FiledStep(before: map<Slot, Key>, after: map<Slot, Key>, d: nat, base: Key, m: nat, n: nat,
                                     last: nat)
    requires n < last
    requires Filed(before[(d, n) := MessageKey(Advance(base, m))], after, d, base, m + 1, n + 1, last)
    ensures Filed(before, after, d, base, m, n, last)
  {
  }

  lemma {:induction false} FiledIsShelved(before: map<Slot, Key>, after: map<Slot, Key>, d: nat, base: Key, m: nat,
                                          n: nat, last: nat)
    requires Filed(before, after, d, base, m, n, last) && Shelved(before, d, base, n) && n <= last && Index(base) == 0
    ensures Shelved(after, d, base, last)
    ensures Behind(before, Depth(base), m) ==> Behind(after, Depth(base), m + last - n)
  {
    forall s: Slot | s in after
      ensures || Depth(after[s]) < Depth(base)
              || (s.0 == d && s.1 < last && after[s] == MessageKey(Advance(base, Index(after[s]))))
      ensures Behind(before, Depth(base), m) ==> Earlier(after[s], Depth(base), m + last - n)
    {
      if s in before && after[s] == before[s] {
        assert Behind(before, Depth(base), m) ==> Earlier(before[s], Depth(base), m);
      } else {
        assert Index(Advance(base, m + s.1 - n)) == m + s.1 - n;
      }
    }
  }

  /** What a skip to `until` does to a consistent end; `moved` is how far the counter goes. */
  ghost predicate SkipDoes(r: State, base: Key, until: nat, skip: Skip, moved: nat)
    requires r.chainRecv.Some? && r.dhRemote.Some?
  {
    var m := Index(r.chainRecv.value);
    && Consistent(skip.after, base)
    && skip.after == r.(skipped := skip.after.skipped, nRecv := r.nRecv + moved,
                        chainRecv := Some(Advance(base, if skip.ending == Completed then m + moved else m)))
    && (Behind(r.skipped, Depth(base), m) ==> Behind(skip.after.skipped, Depth(base), m + moved))
    && (moved > 0 ==> r.nRecv + moved <= until) && (skip.ending == Refused ==> skip.after == r)
    && (skip.ending == Completed ==> until <= skip.after.nRecv)
    && Filed(r.skipped, skip.after.skipped, r.dhRemote.value, base, m, r.nRecv, r.nRecv + moved)
  }

  lemma {:induction false} SkipStep(r: State, base: Key, until: nat) returns (moved: nat)
    requires Consistent(r, base) && r.chainRecv.Some?
    ensures SkipDoes(r, base, until, SkipMessageKeys(r, until), moved)
  {
    hide SkipMessageKeys, SkipDoes;
    if r.nRecv <= until <= r.nRecv + MAX_SKIP {
      moved := SkipMoves(r, base, until);
    } else {
      moved := 0;
      SkipStays(r, base, until);
    }
  }

  lemma {:induction false} SkipStays(r: State, base: Key, until: nat)
    requires Consistent(r, base) && r.chainRecv.Some? && !(r.nRecv <= until <= r.nRecv + MAX_SKIP)
    ensures SkipDoes(r, base, until, SkipMessageKeys(r, until), 0)
  {
    assert SkipMessageKeys(r, until).after == r;
    FiledNothing(r.skipped, r.dhRemote.value, base, Index(r.chainRecv.value), r.nRecv);
    hide Shelved, Filed, Behind;
  }

  lemma {:induction false} SkipMoves(r: State, base: Key, until: nat) returns (moved: nat)
    requires Consistent(r, base) && r.chainRecv.Some? && r.nRecv <= until <= r.nRecv + MAX_SKIP
    ensures SkipDoes(r, base, until, SkipMessageKeys(r, until), moved)
  {
    hide Filed, Shelved, Behind, Advance, Depth, Index, SkipDoes;
    var m, d := Index(r.chainRecv.value), r.dhRemote.value;
    LoopFiles(r.skipped, d, base, m, r.chainRecv.value, r.nRecv, until);
    var loop := SkipLoop(r.skipped, d, r.chainRecv.value, r.nRecv, until);
    moved := loop.n - r.nRecv;
    FiledIsShelved(r.skipped, loop.skipped, d, base, m, r.nRecv, loop.n);
    SkipIsLoop(r, until, loop);
    hide SkipMessageKeys, SkipLoop;
    MovedSkip(r, base, until, SkipMessageKeys(r, until), moved);
  }

  lemma {:induction false} MovedSkip(r: State, base: Key, until: nat, skip: Skip, moved: nat)
    requires Consistent(r, base) && r.chainRecv.Some? && r.nRecv + moved <= until
    requires var m, d := Index(r.chainRecv.value), r.dhRemote.value;
             && skip.after == r.(skipped := skip.after.skipped, nRecv := r.nRecv + moved,
                                 chainRecv := Some(Advance(base, if skip.ending == Completed then m + moved else m)))
             && (skip.ending == Completed ==> skip.after.nRecv == until)
             && (skip.ending == Refused ==> skip.after == r)
             && Shelved(skip.after.skipped, d, base, r.nRecv + moved)
             && (Behind(r.skipped, Depth(base), m) ==> Behind(skip.after.skipped, Depth(base), m + moved))
             && Filed(r.skipped, skip.after.skipped, d, base, m, r.nRecv, r.nRecv + moved)
    ensures SkipDoes(r, base, until, skip, moved)
  {
    hide Filed, Shelved, Behind, Advance;
  }

  lemma {:induction false} FiledNothing(skipped: map<Slot, Key>, d: nat, base: Key, m: nat, n: nat)
    ensures Filed(skipped, skipped, d, base, m, n, n)
  {
  }

  lemma {:induction false} SkipIsLoop(r: State, until: nat, loop: Loop)
    requires r.chainRecv.Some? && r.dhRemote.Some? && r.nRecv <= until <= r.nRecv + MAX_SKIP
    requires loop == SkipLoop(r.skipped, r.dhRemote.value, r.chainRecv.value, r.nRecv, until)
    ensures var skip := SkipMessageKeys(r, until);
            && skip.after == r.(skipped := loop.skipped, nRecv := loop.n,
                                chainRecv := if loop.done then Some(loop.ck) else r.chainRecv)
            && (skip.ending == Completed <==> loop.done) && (skip.ending == Refused ==> skip.after == r)
  {
    RefusedKeeps(r, until);
  }

  lemma {:induction false} RefusedKeeps(r: State, until: nat)
    ensures SkipMessageKeys(r, until).ending == Refused ==> SkipMessageKeys(r, until).after == r
  {
    if r.chainRecv.Some? && r.dhRemote.Some? && r.nRecv <= until {
      LoopEnds(r.skipped, r.dhRemote.value, r.chainRecv.value, r.nRecv, until);
    }
  }

  /** A new chain starts with counter and chain together and every cached key behind. */
  lemma {:induction false} NewChain(r: State, base: Key, remotePub: nat, drawn: nat) returns (next: Key)
    requires Consistent(r, base)
    ensures var after := DhRatchet(r, remotePub, drawn);
            && Consistent(after, next) && after.chainRecv == Some(next) && after.nRecv == 0
            && Behind(after.skipped, Depth(next), 0) && (r.chainRecv.Some? ==> Depth(next) > Depth(base))
            && after.skipped == r.skipped && after.dhRemote == Some(remotePub)
  {
    next := Chain(r.rootKey, Dh(r.dhSelf, remotePub));
    DhRatchetSending(r, remotePub, drawn);
    assert Advance(next, 0) == next;
    assert Depth(next) == Depth(r.rootKey) + 1;
    assert Depth(DhRatchet(r, remotePub, drawn).rootKey) == Depth(r.rootKey) + 2;
  }

  // ------------------------------------------------------------------ one call

  /** The state in which the call's own number is skipped to, with the start of its chain. */
  lemma {:induction false} Following(r: State, base: Key, header: Header, drawn: nat) returns (next: Key)
    requires Consistent(r, base)
    ensures var followed := FollowHeader(r, header, drawn);
            && Consistent(followed.after, next)
            && (followed.ending != Refused || followed.after == r)
            && (followed.ending == Completed ==>
                  if r.dhRemote == Some(header.dhPub) then followed.after == r && next == base
                  else
                    && followed.after.chainRecv == Some(next) && followed.after.nRecv == 0
                    && followed.after.dhRemote == Some(header.dhPub)
                    && Behind(followed.after.skipped, Depth(next), 0)
                    && (r.chainRecv.Some? ==> Depth(next) > Depth(base))
                    && forall i: nat :: (header.dhPub, i) in followed.after.skipped ==> (header.dhPub, i) in r.skipped)
  {
    hide SkipMessageKeys;
    next := base;
    if r.dhRemote != Some(header.dhPub) {
      var skip := SkipMessageKeys(r, header.pn);
      if r.chainRecv.Some? {
        var _ := SkipStep(r, base, header.pn);
      } else {
        NoChain(r, header.pn);
      }
      hide Consistent, Shelved, Behind;
      if skip.ending == Completed {
        next := NewChain(skip.after, base, header.dhPub, drawn);
      }
    }
  }

  lemma {:induction false} NoChain(r: State, until: nat)
    requires r.chainRecv.None?
    ensures SkipMessageKeys(r, until) == Skip(r, Completed)
  {
  }

  /** The uncached path of `decrypt`, in terms of its two skips. */
  lemma {:induction false} UncachedPath(r: State, header: Header, ct: Packet, prefix: Prefix, drawn: nat)
    requires (header.dhPub, header.n) !in r.skipped
    ensures var att := Decrypt(r, header, ct, prefix, drawn);
            var followed := FollowHeader(r, header, drawn);
            if followed.ending != Completed then
              att.after == followed.after && att.key == None && att.torn == (followed.ending == Torn)
            else
              var aligned := SkipMessageKeys(followed.after, header.n);
              if aligned.ending != Completed || aligned.after.chainRecv.None? then
                att.after == aligned.after && att.key == None && att.torn == (aligned.ending == Torn)
              else
                && att.after == Opened(aligned.after) && !att.torn
                && att.key == Some(MessageKey(aligned.after.chainRecv.value))
                && att.result == AeadOpen(att.key.value, ct, AssociatedData(prefix, header))
  {
    hide FollowHeader, SkipMessageKeys;
  }

  /** One call keeps the end consistent and, without a tear, leaves no key ahead that was not. */
  lemma {:induction false} CallStep(r: State, base: Key, header: Header, ct: Packet, prefix: Prefix, drawn: nat)
    returns (next: Key)
    requires Consistent(r, base)
    ensures var att := Decrypt(r, header, ct, prefix, drawn);
            Consistent(att.after, next) && (!att.torn && !Ahead(r) ==> !Ahead(att.after))
  {
    var slot := (header.dhPub, header.n);
    if slot in r.skipped {
      next := base;
      CachedCall(r, base, slot);
      hide Consistent, Ahead;
    } else {
      hide Decrypt, FollowHeader, SkipMessageKeys, Consistent, Ahead, Behind;
      UncachedPath(r, header, ct, prefix, drawn);
      next := Following(r, base, header, drawn);
      var followed := FollowHeader(r, header, drawn);
      if followed.ending == Completed {
        if followed.after.chainRecv.None? {
          NoChain(followed.after, header.n);
        } else {
          if followed.after != r {
            AheadOrBehind(followed.after, next);
          }
          OwnSkip(followed.after, next, header.n);
          var aligned := SkipMessageKeys(followed.after, header.n);
          if aligned.ending == Completed {
            OpenedStep(aligned.after, next);
          }
        }
      }
    }
  }

  lemma {:induction false} CachedCall(r: State, base: Key, slot: Slot)
    requires Consistent(r, base) && slot in r.skipped
    ensures Consistent(r.(skipped := r.skipped - {slot}), base)
    ensures !Ahead(r) ==> !Ahead(r.(skipped := r.skipped - {slot}))
  {
    var after := r.(skipped := r.skipped - {slot});
    if Ahead(after) {
      var n: nat, t: nat :| AheadAt(after, n, t);
      assert AheadAt(r, n, t);
    }
  }

  /** A skip without a tear puts only keys into the cache that it moves the chain past. */
  lemma {:induction false} OwnSkip(r: State, base: Key, until: nat)
    requires Consistent(r, base) && r.chainRecv.Some?
    ensures var skip := SkipMessageKeys(r, until);
            && Consistent(skip.after, base) && skip.after.chainRecv.Some?
            && (skip.ending != Torn && !Ahead(r) ==> !Ahead(skip.after))
  {
    hide SkipMessageKeys, Ahead, Behind, Filed;
    var moved := SkipStep(r, base, until);
    AheadOrBehind(r, base);
    AheadOrBehind(SkipMessageKeys(r, until).after, base);
  }

  lemma {:induction false} OpenedStep(r: State, base: Key)
    requires Consistent(r, base) && r.chainRecv.Some?
    ensures Consistent(Opened(r), base) && (!Ahead(r) ==> !Ahead(Opened(r)))
  {
    assert Advance(base, Index(r.chainRecv.value) + 1) == NextChain(r.chainRecv.value);
    AheadOrBehind(r, base);
    AheadOrBehind(Opened(r), base);
  }
  // ------------------------------------------------------------------ spent keys

  /** Key `k` is behind the chain and not what is cached under `slot`: no call under that slot tries it. */
  predicate Spent(r: State, slot: Slot, k: Key) {
    && r.chainRecv.Some? && Earlier(k, Depth(r.chainRecv.value), Index(r.chainRecv.value))
    && (slot in r.skipped ==> r.skipped[slot] != k)
  }

  lemma {:induction false} SkipSpent(r: State, base: Key, until: nat, slot: Slot, k: Key)
    requires Consistent(r, base) && Spent(r, slot, k)
    ensures var skip := SkipMessageKeys(r, until);
            Consistent(skip.after, base) && Spent(skip.after, slot, k)
  {
    hide SkipMessageKeys, Behind, Shelved;
    var moved := SkipStep(r, base, until);
    var m, after := Index(r.chainRecv.value), SkipMessageKeys(r, until).after;
    if slot in after.skipped && !(slot in r.skipped && after.skipped[slot] == r.skipped[slot]) {
      assert Index(Advance(base, m + slot.1 - r.nRecv)) >= m;
    }
  }

  lemma {:induction false} FollowSpent(r: State, base: Key, header: Header, drawn: nat, slot: Slot, k: Key)
    returns (next: Key)
    requires Consistent(r, base) && Spent(r, slot, k)
    ensures var followed := FollowHeader(r, header, drawn);
            Consistent(followed.after, next) && Spent(followed.after, slot, k)
  {
    hide SkipMessageKeys, Consistent;
    next := base;
    if r.dhRemote != Some(header.dhPub) {
      SkipSpent(r, base, header.pn, slot, k);
      var skip := SkipMessageKeys(r, header.pn);
      if skip.ending == Completed {
        next := NewChain(skip.after, base, header.dhPub, drawn);
        ChainDepth(skip.after, base);
      }
    }
  }

  lemma {:induction false} ChainDepth(r: State, base: Key)
    requires Consistent(r, base) && r.chainRecv.Some?
    ensures Depth(r.chainRecv.value) == Depth(base)
  {
  }

  /** A spent key stays spent, tears or not, and is never tried again under its slot. */
  lemma {:induction false} SpentStays(r: State, base: Key, slot: Slot, k: Key, header: Header, ct: Packet,
                                      prefix: Prefix, drawn: nat)
    requires Consistent(r, base) && Spent(r, slot, k)
    ensures var att := Decrypt(r, header, ct, prefix, drawn);
            Spent(att.after, slot, k) && ((header.dhPub, header.n) == slot ==> att.key != Some(k))
  {
    if (header.dhPub, header.n) !in r.skipped {
      hide Decrypt, FollowHeader, SkipMessageKeys, Consistent;
      UncachedPath(r, header, ct, prefix, drawn);
      var next := FollowSpent(r, base, header, drawn, slot, k);
      var followed := FollowHeader(r, header, drawn);
      if followed.ending == Completed {
        SkipSpent(followed.after, next, header.n, slot, k);
      }
    }
  }

  /** In a state without keys ahead, the key a call tries is spent afterwards. */
  lemma {:induction false} TriedIsSpent(r: State, base: Key, header: Header, ct: Packet, prefix: Prefix, drawn: nat)
    requires Consistent(r, base) && !Ahead(r) && Decrypt(r, header, ct, prefix, drawn).key.Some?
    ensures var att := Decrypt(r, header, ct, prefix, drawn);
            Spent(att.after, (header.dhPub, header.n), att.key.value)
  {
    var slot := (header.dhPub, header.n);
    if slot in r.skipped {
      AheadOrBehind(r, base);
    } else {
      hide Decrypt, FollowHeader, SkipMessageKeys, Ahead, Shelved, Behind;
      UncachedPath(r, header, ct, prefix, drawn);
      var next := Following(r, base, header, drawn);
      var followed := FollowHeader(r, header, drawn).after;
      SlotStaysFree(followed, next, header);
    }
  }

  lemma {:induction false} SlotStaysFree(r: State, base: Key, header: Header)
    requires Consistent(r, base) && (header.dhPub, header.n) !in r.skipped
    ensures (header.dhPub, header.n) !in SkipMessageKeys(r, header.n).after.skipped
  {
    if r.chainRecv.None? {
      NoChain(r, header.n);
    } else {
      hide SkipMessageKeys, Shelved, Behind;
      var moved := SkipStep(r, base, header.n);
    }
  }

  // ------------------------------------------------------------------ any inputs

  function After(r: State, x: Input): State {
    Receive(Receiver(r, []), x).r
  }

  lemma {:induction false} InputStep(r: State, base: Key, x: Input) returns (next: Key)
    requires Consistent(r, base)
    ensures Consistent(After(r, x), next)
  {
    match x
    case Outgoing(_, _) => next := base;
    case Incoming(header, ct, prefix, drawn) => next := CallStep(r, base, header, ct, prefix, drawn);
  }

  lemma {:induction false} LaterConsistent(r: State, base: Key, xs: seq<Input>) returns (last: Key)
    requires Consistent(r, base)
    ensures Consistent(Later(r, xs), last)
    decreases |xs|
  {
    hide Consistent;
    if xs == [] {
      last := base;
    } else {
      last := InputStep(r, base, xs[0]);
      last := LaterConsistent(After(r, xs[0]), last, xs[1..]);
    }
  }

  lemma {:induction false} SpentForever(r: State, base: Key, slot: Slot, k: Key, xs: seq<Input>)
    requires Consistent(r, base) && Spent(r, slot, k)
    ensures Spent(Later(r, xs), slot, k)
    decreases |xs|
  {
    hide Consistent, Decrypt;
    if xs != [] {
      var next := InputStep(r, base, xs[0]);
      if xs[0].Incoming? {
        SpentStays(r, base, slot, k, xs[0].header, xs[0].ct, xs[0].prefix, xs[0].drawn);
      }
      SpentForever(After(r, xs[0]), next, slot, k, xs[1..]);
    }
  }

  // ------------------------------------------------------------------ replay

  predicate Accepts(r: State, x: Input) {
    x.Incoming? && Decrypt(r, x.header, x.ct, x.prefix, x.drawn).result.Ok?
  }

  /** The packet `x` is accepted now and, after further inputs `xs`, once more. */
  predicate AcceptedAgain(r: State, x: Input, xs: seq<Input>) {
    Accepts(r, x) && Accepts(Later(After(r, x), xs), x)
  }

  ghost predicate Replayable(r: State) {
    exists x: Input, xs: seq<Input> :: AcceptedAgain(r, x, xs)
  }

  lemma {:induction false} AcceptedOnce(r: State, base: Key, x: Input, xs: seq<Input>)
    requires Consistent(r, base) && !Ahead(r)
    ensures !AcceptedAgain(r, x, xs)
  {
    if Accepts(r, x) {
      hide Consistent, Ahead, Decrypt, Spent;
      var slot := (x.header.dhPub, x.header.n);
      var att := Decrypt(r, x.header, x.ct, x.prefix, x.drawn);
      TriedIsSpent(r, base, x.header, x.ct, x.prefix, x.drawn);
      var next := InputStep(r, base, x);
      SpentForever(After(r, x), next, slot, att.key.value, xs);
      var last := Later(After(r, x), xs);
      var end := LaterConsistent(After(r, x), next, xs);
      SpentStays(last, end, slot, att.key.value, x.header, x.ct, x.prefix, x.drawn);
      if Accepts(last, x) {
      }
    }
  }

  /** Junk under a free number below the counter costs the chain one key a packet. */
  lemma {:induction false} JunkAdvances(r: State, n: nat, prefix: Prefix, t: nat) returns (xs: seq<Input>)
    requires r.dhRemote.Some? && r.chainRecv.Some? && n < r.nRecv && (r.dhRemote.value, n) !in r.skipped
    ensures Later(r, xs) == r.(chainRecv := Some(Advance(r.chainRecv.value, t)), nRecv := r.nRecv + t)
    decreases t
  {
    if t == 0 {
      xs := [];
    } else {
      var x := Incoming(Header(r.dhRemote.value, 0, n), Junk([]), prefix, 0);
      var next := After(r, x);
      var more := JunkAdvances(next, n, prefix, t - 1);
      AdvanceSum(r.chainRecv.value, 1, t - 1);
      assert Advance(r.chainRecv.value, 1) == NextChain(Advance(r.chainRecv.value, 0));
      xs := [x] + more;
      assert xs[1..] == more;
    }
  }

  lemma {:induction false} AheadReplays(r: State, base: Key, text: Bytes, prefix: Prefix)
    returns (x: Input, xs: seq<Input>)
    requires Consistent(r, base) && Ahead(r)
    ensures AcceptedAgain(r, x, xs)
  {
    var n: nat, t: nat :| AheadAt(r, n, t);
    var header, ck := Header(r.dhRemote.value, 0, n), r.chainRecv.value;
    assert Depth(Advance(ck, t)) == Depth(base);
    var ct := AeadSeal(MessageKey(Advance(ck, t)), text, AssociatedData(prefix, header));
    x := Incoming(header, ct, prefix, 0);
    assert After(r, x) == r.(skipped := r.skipped - {(header.dhPub, n)});
    xs := JunkAdvances(After(r, x), n, prefix, t);
  }

  /** In every state an end can reach, through any inputs and any tears, some packet can be accepted now
      and once more later if and only if a cached key of the current chain is still ahead of it. */
  lemma {:induction false} ReplayableExactly(start: State, root: Key, remotePub: nat, secret: nat, xs: seq<Input>)
    requires start == InitInitiator(root, remotePub, secret) || start == InitResponder(root, secret)
    ensures Replayable(Later(start, xs)) <==> Ahead(Later(start, xs))
  {
    var base := LaterConsistent(start, root, xs);
    hide Consistent, AcceptedAgain, Ahead;
    var r := Later(start, xs);
    if Ahead(r) {
      var x, more := AheadReplays(r, base, [], Prefix(0, 0));
    }
    if !Ahead(r) {
      forall x: Input, more: seq<Input>
        ensures !AcceptedAgain(r, x, more)
      {
        AcceptedOnce(r, base, x, more);
      }
    }
  }

  /** Keys get ahead by tears and in no other way: from any reachable state without one, a call leaves
      one if and only if it meets the tearing condition. */
  lemma {:induction false} OnlyTearsMakeAhead(start: State, root: Key, remotePub: nat, secret: nat, xs: seq<Input>,
                                              x: Input)
    requires start == InitInitiator(root, remotePub, secret) || start == InitResponder(root, secret)
    requires !Ahead(Later(start, xs))
    ensures Ahead(After(Later(start, xs), x)) <==> Tears(Later(start, xs), x)
  {
    var base := LaterConsistent(start, root, xs);
    var r := Later(start, xs);
    hide Consistent, Later;
    if x.Incoming? {
      hide Ahead, Decrypt, WouldTear;
      TearsExactly(r, x.header, x.ct, x.prefix, x.drawn);
      var _ := CallStep(r, base, x.header, x.ct, x.prefix, x.drawn);
      if WouldTear(r, x.header) {
        TornIsAhead(r, x.header, x.ct, x.prefix, x.drawn);
      }
    } else {
      OutgoingKeeps(r, x);
    }
  }

  lemma {:induction false} OutgoingKeeps(r: State, x: Input)
    requires x.Outgoing?
    ensures Ahead(After(r, x)) ==> Ahead(r)
  {
    if Ahead(After(r, x)) {
      var n: nat, t: nat :| AheadAt(After(r, x), n, t);
      assert AheadAt(r, n, t);
    }
  }

  lemma {:induction false} TornIsAhead(r: State, header: Header, ct: Packet, prefix: Prefix, drawn: nat)
    requires WouldTear(r, header)
    ensures Ahead(Decrypt(r, header, ct, prefix, drawn).after)
  {
    hide WouldTear, Decrypt, SkipTears, SkipMessageKeys;
    var before, until := TornCall(r, header, ct, prefix, drawn);
    TornSkip(before, until);
    var torn := SkipMessageKeys(before, until).after;
    assert Advance(torn.chainRecv.value, 0) == torn.chainRecv.value;
    assert AheadAt(torn, before.nRecv, 0);
  }

  /** From any reachable state, torn or not, a call that follows the peer to a new chain and gets as far
      as trying a key repairs the end: no key is ahead, and counter and chain agree. */
  lemma {:induction false} NewChainHeals(start: State, root: Key, remotePub: nat, secret: nat, xs: seq<Input>,
                                         header: Header, ct: Packet, prefix: Prefix, drawn: nat)
    requires start == InitInitiator(root, remotePub, secret) || start == InitResponder(root, secret)
    requires var r := Later(start, xs);
             && r.dhRemote != Some(header.dhPub) && (header.dhPub, header.n) !in r.skipped
             && Decrypt(r, header, ct, prefix, drawn).key.Some?
    ensures var after := Decrypt(Later(start, xs), header, ct, prefix, drawn).after;
            !Ahead(after) && after.chainRecv.Some? && Index(after.chainRecv.value) == after.nRecv
  {
    var base := LaterConsistent(start, root, xs);
    var r := Later(start, xs);
    hide Later;
    ChainChangeHeals(r, base, header, ct, prefix, drawn);
  }

  lemma {:induction false} ChainChangeHeals(r: State, base: Key, header: Header, ct: Packet, prefix: Prefix, drawn: nat)
    requires Consistent(r, base) && r.dhRemote != Some(header.dhPub) && (header.dhPub, header.n) !in r.skipped
    requires Decrypt(r, header, ct, prefix, drawn).key.Some?
    ensures var after := Decrypt(r, header, ct, prefix, drawn).after;
            !Ahead(after) && after.chainRecv.Some? && Index(after.chainRecv.value) == after.nRecv
  {
    hide Decrypt, FollowHeader, SkipMessageKeys, Ahead, Behind, Shelved;
    UncachedPath(r, header, ct, prefix, drawn);
    var next := Following(r, base, header, drawn);
    var followed := FollowHeader(r, header, drawn).after;
    AheadOrBehind(followed, next);
    OwnSkip(followed, next, header.n);
    var moved := SkipStep(followed, next, header.n);
    OpenedStep(SkipMessageKeys(followed, header.n).after, next);
    assert Index(Advance(next, moved)) == moved;
  }
}
