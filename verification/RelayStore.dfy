/**
 The relay's state, `relay/src/store.rs`: published prekeys, and mailboxes bounded by count, bytes
 and age. First the operations as functions on values, then the store object proved against
 them, then what the two trimming loops leave of a queue.
 */
module RelayStore {
  import opened Results
  import opened Identity

  datatype Limits = Limits(mailTtl: nat, maxMessage: nat, maxCount: nat, maxBytes: nat)

  datatype Mail = Mail(at: nat, bytes: Bytes)

  datatype StoredKeys = StoredKeys(base: Bundle, oneTime: seq<(nat, nat)>)

  datatype Inner = Inner(keys: map<nat, StoredKeys>, queues: map<nat, seq<Mail>>)

  /** The single way an enqueue can be refused. */
  datatype Refusal = MessageTooLarge

  const EMPTY: Inner := Inner(map[], map[])

  function Publish(s: Inner, bundle: Bundle, oneTime: seq<(nat, nat)>): Inner {
    var base := bundle.(oneTimePrekey := None, oneTimePrekeyId := None);
    s.(keys := s.keys[bundle.identityEd := StoredKeys(base, oneTime)])
  }

  /** The bundle handed out for an identity, with the next one-time prekey of its pool, if any. */
  function Fetch(s: Inner, identity: nat): (Inner, Option<Bundle>) {
    if identity !in s.keys then (s, None)
    else
      var k := s.keys[identity];
      if k.oneTime == [] then (s, Some(k.base))
      else
        (s.(keys := s.keys[identity := k.(oneTime := k.oneTime[1..])]),
         Some(k.base.(oneTimePrekey := Some(k.oneTime[0].1), oneTimePrekeyId := Some(k.oneTime[0].0))))
  }

  function QueueOf(s: Inner, mailbox: nat): seq<Mail> {
    if mailbox in s.queues then s.queues[mailbox] else []
  }

  function TotalBytes(q: seq<Mail>): nat
    decreases |q|
  {
    if q == [] then 0 else |q[0].bytes| + TotalBytes(q[1..])
  }

  /** Drop the oldest until at most `max` messages are left. */
  function TrimCount(q: seq<Mail>, max: nat): seq<Mail>
    decreases |q|
  {
    if |q| > max then TrimCount(q[1..], max) else q
  }

  /** Drop the oldest until at most `max` bytes are left. */
  function TrimBytes(q: seq<Mail>, max: nat): seq<Mail>
    decreases |q|
  {
    if q != [] && TotalBytes(q) > max then TrimBytes(q[1..], max) else q
  }

  function Trim(q: seq<Mail>, limits: Limits): seq<Mail> {
    TrimBytes(TrimCount(q, limits.maxCount), limits.maxBytes)
  }

  function Enqueue(s: Inner, limits: Limits, mailbox: nat, message: Bytes, now: nat): Inner {
    if |message| > limits.maxMessage then s
    else s.(queues := s.queues[mailbox := Trim(QueueOf(s, mailbox) + [Mail(now, message)], limits)])
  }

  function Cutoff(limits: Limits, now: nat): nat {
    if now < limits.mailTtl then 0 else now - limits.mailTtl
  }

  function Unexpired(q: seq<Mail>, cutoff: nat): seq<Mail>
    decreases |q|
  {
    if q == [] then []
    else
      var init := Unexpired(q[..|q| - 1], cutoff);
      if q[|q| - 1].at >= cutoff then init + [q[|q| - 1]] else init
  }

  function Contents(q: seq<Mail>): seq<Bytes> {
    seq(|q|, i requires 0 <= i < |q| => q[i].bytes)
  }

  function Poll(s: Inner, limits: Limits, mailbox: nat, now: nat): (Inner, seq<Bytes>) {
    (s.(queues := s.queues - {mailbox}), Contents(Unexpired(QueueOf(s, mailbox), Cutoff(limits, now))))
  }

  function Sweep(s: Inner, limits: Limits, now: nat): Inner {
    var cutoff := Cutoff(limits, now);
    s.(queues := map b | b in s.queues && Unexpired(s.queues[b], cutoff) != [] :: Unexpired(s.queues[b], cutoff))
  }

  // ------------------------------------------------------------------ what the reading functions mean

  /** All bytes of a queue, one message after another. */
  function Joined(q: seq<Mail>): Bytes
    decreases |q|
  {
    if q == [] then [] else q[0].bytes + Joined(q[1..])
  }

  lemma {:induction false} TotalIsLength(q: seq<Mail>)
    ensures TotalBytes(q) == |Joined(q)|
    decreases |q|
  {
    if q != [] {
      TotalIsLength(q[1..]);
    }
  }

  /** `at` lists, in ascending order, where in `q` the mail lies that is at most `ttl` seconds old. */
  ghost predicate Young(at: seq<nat>, q: seq<Mail>, ttl: nat, now: nat) {
    && (forall i, j :: 0 <= i < j < |at| ==> at[i] < at[j])
    && (forall i :: 0 <= i < |at| ==> at[i] < |q|)
    && (forall k: nat :: k < |q| ==> (k in at <==> now <= q[k].at + ttl))
  }

  lemma {:induction false} YoungStep(before: seq<nat>, q: seq<Mail>, ttl: nat, now: nat)
    requires q != [] && Young(before, q[..|q| - 1], ttl, now)
    ensures var n := |q| - 1;
            Young(if now <= q[n].at + ttl then before + [n] else before, q, ttl, now)
  {
    var n := |q| - 1;
    var at := if now <= q[n].at + ttl then before + [n] else before;
    assert forall i :: 0 <= i < |before| ==> at[i] == before[i] < n;
    forall k: nat | k < |q|
      ensures k in at <==> now <= q[k].at + ttl
    {
      if k < n {
        assert q[..n][k] == q[k];
        assert k in at <==> k in before;
      } else {
        assert k !in before;
        assert at != before ==> at[|before|] == k;
      }
    }
  }

  lemma {:induction false} UnexpiredIsYoung(q: seq<Mail>, limits: Limits, now: nat) returns (at: seq<nat>)
    ensures Young(at, q, limits.mailTtl, now)
    ensures var kept := Unexpired(q, Cutoff(limits, now));
            |kept| == |at| && forall i :: 0 <= i < |at| ==> at[i] < |q| && kept[i] == q[at[i]]
    decreases |q|
  {
    if q == [] {
      at := [];
    } else {
      var n := |q| - 1;
      var before := UnexpiredIsYoung(q[..n], limits, now);
      hide Young;
      YoungStep(before, q, limits.mailTtl, now);
      at := if now <= q[n].at + limits.mailTtl then before + [n] else before;
    }
  }

  /** A poll returns, in order, exactly the bytes of the mailbox's mail that is at most the time to live
      old; it takes the mailbox away and leaves everything else. */
  lemma {:induction false} PollExactly(s: Inner, limits: Limits, b: nat, now: nat) returns (at: seq<nat>)
    ensures Young(at, QueueOf(s, b), limits.mailTtl, now)
    ensures var (after, messages) := Poll(s, limits, b, now);
            && |messages| == |at| && (forall i :: 0 <= i < |at| ==> messages[i] == QueueOf(s, b)[at[i]].bytes)
            && after.keys == s.keys && b !in after.queues
            && forall c :: c != b ==> (c in after.queues <==> c in s.queues) && QueueOf(after, c) == QueueOf(s, c)
  {
    at := UnexpiredIsYoung(QueueOf(s, b), limits, now);
  }

  /** After a sweep each mailbox holds, in order, exactly its mail that is at most the time to live old,
      and it is present exactly if that is any. */
  lemma {:induction false} SweepExactly(s: Inner, limits: Limits, now: nat, b: nat) returns (at: seq<nat>)
    ensures Young(at, QueueOf(s, b), limits.mailTtl, now)
    ensures var after := Sweep(s, limits, now);
            && |QueueOf(after, b)| == |at|
            && (forall i :: 0 <= i < |at| ==> QueueOf(after, b)[i] == QueueOf(s, b)[at[i]])
            && (b in after.queues <==> at != []) && after.keys == s.keys
  {
    at := UnexpiredIsYoung(QueueOf(s, b), limits, now);
  }

  function FetchTimes(s: Inner, identity: nat, k: nat): Inner {
    if k == 0 then s else Fetch(FetchTimes(s, identity, k - 1), identity).0
  }

  /** After a publish the `k`-th fetch hands out the published bundle with the `k`-th uploaded one-time
      prekey, and with none once they are used up. Other identities and all mail are left alone. */
  lemma {:induction false} PublishThenFetch(s: Inner, bundle: Bundle, oneTime: seq<(nat, nat)>, k: nat, other: nat)
    requires other != bundle.identityEd
    ensures var later := FetchTimes(Publish(s, bundle, oneTime), bundle.identityEd, k);
            && Fetch(later, bundle.identityEd).1 ==
               Some(bundle.(oneTimePrekey := if k < |oneTime| then Some(oneTime[k].1) else None,
                            oneTimePrekeyId := if k < |oneTime| then Some(oneTime[k].0) else None))
            && Fetch(later, other).1 == Fetch(s, other).1 && later.queues == s.queues
  {
    PoolAfter(s, bundle, oneTime, k, other);
  }

  lemma {:induction false} PoolAfter(s: Inner, bundle: Bundle, oneTime: seq<(nat, nat)>, k: nat, other: nat)
    requires other != bundle.identityEd
    ensures var later := FetchTimes(Publish(s, bundle, oneTime), bundle.identityEd, k);
            && bundle.identityEd in later.keys && later.queues == s.queues
            && later.keys[bundle.identityEd] ==
               StoredKeys(bundle.(oneTimePrekey := None, oneTimePrekeyId := None),
                          if k <= |oneTime| then oneTime[k..] else [])
            && (other in later.keys <==> other in s.keys)
            && (other in s.keys ==> later.keys[other] == s.keys[other])
  {
    if k > 0 {
      PoolAfter(s, bundle, oneTime, k - 1, other);
      if k <= |oneTime| {
        assert oneTime[k - 1..][1..] == oneTime[k..];
      }
    }
  }

  /** An identity that never published gets nothing, and nothing changes. */
  lemma {:induction false} UnknownIdentity(s: Inner, identity: nat)
    ensures Fetch(s, identity).1.None? <==> identity !in s.keys
    ensures Fetch(s, identity).1.None? ==> Fetch(s, identity).0 == s
  {
  }

  // ------------------------------------------------------------------ which operations mark the store

  datatype Mutation =
    | Publishing(bundle: Bundle, oneTime: seq<(nat, nat)>)
    | Fetching(identity: nat)
    | Enqueuing(mailbox: nat, message: Bytes, now: nat)
    | Polling(mailbox: nat, now: nat)
    | Sweeping(now: nat)

  function Mutated(s: Inner, limits: Limits, m: Mutation): Inner {
    match m
    case Publishing(bundle, oneTime) => Publish(s, bundle, oneTime)
    case Fetching(identity) => Fetch(s, identity).0
    case Enqueuing(b, message, now) => Enqueue(s, limits, b, message, now)
    case Polling(b, now) => Poll(s, limits, b, now).0
    case Sweeping(now) => Sweep(s, limits, now)
  }

  /** Whether the operation goes on to call `mark_dirty`. */
  predicate Marks(s: Inner, limits: Limits, m: Mutation) {
    match m
    case Publishing(_, _) => true
    case Fetching(identity) => identity in s.keys && s.keys[identity].oneTime != []
    case Enqueuing(_, message, _) => |message| <= limits.maxMessage
    case Polling(b, _) => b in s.queues
    case Sweeping(now) => exists b :: b in s.queues && Unexpired(s.queues[b], Cutoff(limits, now)) != s.queues[b]
  }

  // ------------------------------------------------------------------ the store object

  /** Mailbox and position of all mail in `boxes` that is more than `ttl` seconds old. */
  ghost function StaleIn(queues: map<nat, seq<Mail>>, boxes: set<nat>, ttl: nat, now: nat): set<(nat, nat)> {
    set b, i | b in boxes && b in queues && 0 <= i < |queues[b]| && queues[b][i].at + ttl < now :: (b, i)
  }

  ghost function StaleAt(q: seq<Mail>, ttl: nat, now: nat): set<nat> {
    set i | 0 <= i < |q| && q[i].at + ttl < now
  }

  lemma {:induction false} StaleStep(q: seq<Mail>, ttl: nat, now: nat)
    requires q != []
    ensures var n := |q| - 1;
            |StaleAt(q, ttl, now)| == |StaleAt(q[..n], ttl, now)| + (if q[n].at + ttl < now then 1 else 0)
  {
    var n := |q| - 1;
    assert StaleAt(q, ttl, now) == StaleAt(q[..n], ttl, now) + (if q[n].at + ttl < now then {n} else {});
  }

  lemma {:induction false} StaleCount(q: seq<Mail>, limits: Limits, now: nat)
    ensures |StaleAt(q, limits.mailTtl, now)| + |Unexpired(q, Cutoff(limits, now))| == |q|
    decreases |q|
  {
    if q == [] {
      assert StaleAt(q, limits.mailTtl, now) == {};
    } else {
      hide StaleAt;
      StaleStep(q, limits.mailTtl, now);
      StaleCount(q[..|q| - 1], limits, now);
    }
  }

  ghost function Located(b: nat, positions: set<nat>): set<(nat, nat)> {
    set i | i in positions :: (b, i)
  }

  lemma {:induction false} LocatedCount(b: nat, positions: set<nat>)
    ensures |Located(b, positions)| == |positions|
    decreases |positions|
  {
    if positions != {} {
      var i :| i in positions;
      LocatedCount(b, positions - {i});
      assert Located(b, positions) == Located(b, positions - {i}) + {(b, i)};
    }
  }

  lemma {:induction false} StaleAdd(queues: map<nat, seq<Mail>>, boxes: set<nat>, b: nat, limits: Limits, now: nat)
    requires b in queues && b !in boxes
    ensures |StaleIn(queues, boxes + {b}, limits.mailTtl, now)| ==
            |StaleIn(queues, boxes, limits.mailTtl, now)| + |queues[b]| - |Unexpired(queues[b], Cutoff(limits, now))|
  {
    StaleCount(queues[b], limits, now);
    LocatedCount(b, StaleAt(queues[b], limits.mailTtl, now));
    assert StaleIn(queues, boxes + {b}, limits.mailTtl, now) ==
           StaleIn(queues, boxes, limits.mailTtl, now) + Located(b, StaleAt(queues[b], limits.mailTtl, now));
    assert StaleIn(queues, boxes, limits.mailTtl, now) !! Located(b, StaleAt(queues[b], limits.mailTtl, now));
  }

  /** A sweep removes something exactly if it changes some mailbox's contents. */
  lemma {:induction false} StaleMarks(s: Inner, limits: Limits, now: nat)
    ensures StaleIn(s.queues, s.queues.Keys, limits.mailTtl, now) != {} <==> Marks(s, limits, Sweeping(now))
  {
    forall b | b in s.queues
      ensures StaleAt(s.queues[b], limits.mailTtl, now) != {} <==>
                Unexpired(s.queues[b], Cutoff(limits, now)) != s.queues[b]
    {
      StaleCount(s.queues[b], limits, now);
      UnexpiredShrinks(s.queues[b], Cutoff(limits, now));
    }
    if StaleIn(s.queues, s.queues.Keys, limits.mailTtl, now) != {} {
      var p :| p in StaleIn(s.queues, s.queues.Keys, limits.mailTtl, now);
      assert p.1 in StaleAt(s.queues[p.0], limits.mailTtl, now);
    }
    if Marks(s, limits, Sweeping(now)) {
      var b :| b in s.queues && Unexpired(s.queues[b], Cutoff(limits, now)) != s.queues[b];
      var i :| i in StaleAt(s.queues[b], limits.mailTtl, now);
      assert (b, i) in StaleIn(s.queues, s.queues.Keys, limits.mailTtl, now);
    }
  }

  lemma {:induction false} UnexpiredShrinks(q: seq<Mail>, cutoff: nat)
    ensures |Unexpired(q, cutoff)| <= |q|
    ensures |Unexpired(q, cutoff)| == |q| ==> Unexpired(q, cutoff) == q
  {
    if q != [] {
      UnexpiredShrinks(q[..|q| - 1], cutoff);
    }
  }

  /** The queues once all mailboxes but those in `todo` have been swept. */
  function SweptOutside(q: map<nat, seq<Mail>>, todo: set<nat>, cutoff: nat): map<nat, seq<Mail>> {
    map b | b in q && (b in todo || Unexpired(q[b], cutoff) != []) ::
      if b in todo then q[b] else Unexpired(q[b], cutoff)
  }

  lemma {:induction false} SweptEnds(s: Inner, limits: Limits, now: nat)
    ensures SweptOutside(s.queues, s.queues.Keys, Cutoff(limits, now)) == s.queues
    ensures s.(queues := SweptOutside(s.queues, {}, Cutoff(limits, now))) == Sweep(s, limits, now)
  {
  }

  lemma {:induction false} SweepOne(q: map<nat, seq<Mail>>, todo: set<nat>, b: nat, limits: Limits, now: nat)
    requires b in todo && todo <= q.Keys
    ensures var cutoff := Cutoff(limits, now);
            var kept, was := Unexpired(q[b], cutoff), SweptOutside(q, todo, cutoff);
            && |kept| <= |q[b]|
            && SweptOutside(q, todo - {b}, cutoff) == (if kept == [] then was - {b} else was[b := kept])
            && |StaleIn(q, q.Keys - (todo - {b}), limits.mailTtl, now)| ==
               |StaleIn(q, q.Keys - todo, limits.mailTtl, now)| + |q[b]| - |kept|
  {
    UnexpiredShrinks(q[b], Cutoff(limits, now));
    StaleAdd(q, q.Keys - todo, b, limits, now);
    assert q.Keys - (todo - {b}) == q.Keys - todo + {b};
  }

  const FLUSH_INTERVAL_SECS: nat := 1

  /** Readings of the monotonic clock count nanoseconds from some origin. */
  const NANOS: nat := 1_000_000_000

  /** Whole seconds from one reading to another, none if the clock has not moved on. */
  function Elapsed(since: int, now: int): nat {
    if now < since then 0 else (now - since) / NANOS
  }

  /** A reading that makes a flush due, or `now` itself if that would lie before `earliest`. */
  function Backdated(now: int, earliest: int): int {
    var back := now - (FLUSH_INTERVAL_SECS + 1) * NANOS;
    if back < earliest then now else back
  }

  const SNAPSHOT_VERSION: nat := 1

  /** What reading the state file can yield. */
  datatype Read = Snapshot(version: nat, inner: Inner) | Corrupt | Missing | Unreadable

  datatype OpenError = CorruptState | UnsupportedVersion(found: nat) | ReadFailed

  datatype Opening = Opened(store: Store) | Failed(error: OpenError)

  /** The store, with the file its snapshots go to; no clock reading can be before `earliest`. */
  class Store {
    const limits: Limits
    const persistent: bool
    const earliest: int
    var keys: map<nat, StoredKeys>
    var queues: map<nat, seq<Mail>>
    var dirty: bool
    var lastFlush: int
    var file: Inner

    function Value(): Inner
      reads this
    {
      Inner(keys, queues)
    }

    constructor Loaded(limits: Limits, persistent: bool, loaded: Inner, now: int, earliest: int)
      ensures Value() == loaded && file == loaded && !dirty && lastFlush == now
      ensures this.limits == limits && this.persistent == persistent && this.earliest == earliest
    {
      this.limits, this.persistent, this.earliest := limits, persistent, earliest;
      keys, queues := loaded.keys, loaded.queues;
      dirty, lastFlush, file := false, now, loaded;
    }

    static method Open(read: Read, limits: Limits, now: int, earliest: int) returns (r: Opening)
      ensures r.Opened? <==> read.Missing? || (read.Snapshot? && read.version == SNAPSHOT_VERSION)
      ensures r.Opened? ==>
                && fresh(r.store) && r.store.persistent && !r.store.dirty && r.store.lastFlush == now
                && r.store.limits == limits && r.store.earliest == earliest
                && r.store.Value() == r.store.file == if read.Missing? then EMPTY else read.inner
      ensures r.Failed? ==>
                r.error == match read
                           case Snapshot(version, _) => UnsupportedVersion(version)
                           case Corrupt => CorruptState
                           case _ => ReadFailed
    {
      var inner: Inner;
      match read {
        case Snapshot(version, found) =>
          if version != SNAPSHOT_VERSION {
            return Failed(UnsupportedVersion(version));
          }
          inner := found;
        case Corrupt => return Failed(CorruptState);
        case Missing => inner := EMPTY;
        case Unreadable => return Failed(ReadFailed);
      }
      var store := new Store.Loaded(limits, true, inner, now, earliest);
      return Opened(store);
    }

    method MarkDirty()
      modifies this`dirty
      ensures dirty == (persistent || old(dirty))
    {
      if persistent {
        dirty := true;
      }
    }

    method PublishKeys(bundle: Bundle, oneTime: seq<(nat, nat)>)
      modifies this`keys, this`dirty
      ensures Value() == Publish(old(Value()), bundle, oneTime)
      ensures dirty == (persistent || old(dirty))
      ensures persistent && Marks(old(Value()), limits, Publishing(bundle, oneTime)) ==> dirty
    {
      var base := bundle.(oneTimePrekey := None, oneTimePrekeyId := None);
      keys := keys[bundle.identityEd := StoredKeys(base, oneTime)];
      MarkDirty();
    }

    method FetchBundle(identity: nat) returns (r: Option<Bundle>)
      modifies this`keys, this`dirty
      ensures (Value(), r) == Fetch(old(Value()), identity)
      ensures dirty == (old(dirty) || (persistent && Marks(old(Value()), limits, Fetching(identity))))
      ensures dirty == (old(dirty) || (persistent && Value() != old(Value())))
    {
      if identity !in keys {
        return None;
      }
      var stored := keys[identity];
      var bundle := stored.base;
      if stored.oneTime != [] {
        var (id, public) := stored.oneTime[0];
        bundle := bundle.(oneTimePrekey := Some(public), oneTimePrekeyId := Some(id));
        keys := keys[identity := stored.(oneTime := stored.oneTime[1..])];
        MarkDirty();
      }
      return Some(bundle);
    }

    method EnqueueAt(mailbox: nat, message: Bytes, now: nat) returns (refused: Option<Refusal>)
      modifies this`queues, this`dirty
      ensures Value() == Enqueue(old(Value()), limits, mailbox, message, now)
      ensures refused.Some? <==> |message| > limits.maxMessage
      ensures dirty == (old(dirty) || (persistent && refused.None?))
      ensures refused.None? <==> Marks(old(Value()), limits, Enqueuing(mailbox, message, now))
    {
      if |message| > limits.maxMessage {
        return Some(MessageTooLarge);
      }
      var queue := (if mailbox in queues then queues[mailbox] else []) + [Mail(now, message)];
      ghost var whole := queue;
      while |queue| > limits.maxCount
        invariant TrimCount(queue, limits.maxCount) == TrimCount(whole, limits.maxCount)
        decreases |queue|
      {
        queue := queue[1..];
      }
      var total := Sum(queue);
      while total > limits.maxBytes
        invariant total == TotalBytes(queue)
        invariant TrimBytes(queue, limits.maxBytes) == Trim(whole, limits)
        decreases |queue|
      {
        total := total - |queue[0].bytes|;
        queue := queue[1..];
      }
      queues := queues[mailbox := queue];
      MarkDirty();
      return None;
    }

    static method Sum(queue: seq<Mail>) returns (total: nat)
      ensures total == TotalBytes(queue)
    {
      total := 0;
      for i := 0 to |queue|
        invariant total + TotalBytes(queue[i..]) == TotalBytes(queue)
      {
        assert queue[i..][1..] == queue[i + 1..];
        total := total + |queue[i].bytes|;
      }
    }

    method PollAt(mailbox: nat, now: nat) returns (messages: seq<Bytes>)
      modifies this`queues, this`dirty
      ensures (Value(), messages) == Poll(old(Value()), limits, mailbox, now)
      ensures dirty == (old(dirty) || (persistent && Marks(old(Value()), limits, Polling(mailbox, now))))
      ensures dirty == (old(dirty) || (persistent && Value() != old(Value())))
    {
      var cutoff := Cutoff(limits, now);
      if mailbox !in queues {
        assert queues - {mailbox} == queues;
        assert Value() == Value().(queues := queues - {mailbox});
        assert Contents(Unexpired([], cutoff)) == [];
        return [];
      }
      var drained := queues[mailbox];
      queues := queues - {mailbox};
      MarkDirty();
      messages := [];
      for i := 0 to |drained|
        invariant messages == Contents(Unexpired(drained[..i], cutoff))
      {
        assert drained[..i + 1][..i] == drained[..i];
        if drained[i].at >= cutoff {
          messages := messages + [drained[i].bytes];
        }
      }
      assert drained[..|drained|] == drained;
    }

    method SweepExpiredAt(now: nat) returns (removed: nat)
      modifies this`queues, this`dirty
      ensures Value() == Sweep(old(Value()), limits, now)
      ensures removed == |StaleIn(old(queues), old(queues).Keys, limits.mailTtl, now)|
      ensures dirty == (old(dirty) || (persistent && removed > 0))
      ensures removed > 0 <==> Marks(old(Value()), limits, Sweeping(now))
    {
      var cutoff := Cutoff(limits, now);
      var before := queues;
      var todo := queues.Keys;
      removed := 0;
      assert StaleIn(before, before.Keys - todo, limits.mailTtl, now) == {};
      SweptEnds(Value(), limits, now);
      hide StaleIn, SweptOutside, Unexpired, Cutoff, Sweep, Marks;
      while todo != {}
        modifies this`queues
        invariant todo <= before.Keys
        invariant queues == SweptOutside(before, todo, cutoff)
        invariant removed == |StaleIn(before, before.Keys - todo, limits.mailTtl, now)|
        decreases todo
      {
        var b :| b in todo;
        var kept := Unexpired(queues[b], cutoff);
        SweepOne(before, todo, b, limits, now);
        removed := removed + (|queues[b]| - |kept|);
        queues := if kept == [] then queues - {b} else queues[b := kept];
        todo := todo - {b};
      }
      assert before.Keys - todo == before.Keys;
      StaleMarks(old(Value()), limits, now);
      if removed > 0 {
        MarkDirty();
      }
    }

    method MaybeFlush(now: int)
      modifies this`file, this`dirty, this`lastFlush
      ensures var due := persistent && old(dirty) && now - old(lastFlush) >= FLUSH_INTERVAL_SECS * NANOS;
              && file == (if due then Value() else old(file))
              && dirty == (old(dirty) && !due)
              && lastFlush == (if due then now else old(lastFlush))
    {
      if !persistent {
        return;
      }
      if !dirty || Elapsed(lastFlush, now) < FLUSH_INTERVAL_SECS {
        return;
      }
      file := Value();
      dirty := false;
      lastFlush := now;
    }

    /** Write now. The clock is read at `now`, and again at `later` once the lock has been released and
        retaken; this saves exactly if the clock can express a reading two seconds before `now`, or a
        second passed in between. */
    method Flush(now: int, later: int)
      requires now <= later
      modifies this`file, this`dirty, this`lastFlush
      ensures var saves := now - (FLUSH_INTERVAL_SECS + 1) * NANOS >= earliest || later - now >= NANOS;
              && file == (if persistent && saves then Value() else old(file))
              && dirty == (if persistent then !saves else old(dirty))
              && lastFlush == (if !persistent then old(lastFlush) else if saves then later else now)
    {
      if persistent {
        dirty := true;
        lastFlush := Backdated(now, earliest);
      }
      MaybeFlush(later);
    }
  }

  // ------------------------------------------------------------------ trimming

  predicate Fits(q: seq<Mail>, limits: Limits) {
    |q| <= limits.maxCount && TotalBytes(q) <= limits.maxBytes
  }

  /** Drop from the front until the rest fits both caps. */
  function Longest(q: seq<Mail>, limits: Limits): seq<Mail>
    decreases |q|
  {
    if q == [] || Fits(q, limits) then q else Longest(q[1..], limits)
  }

  function Suffix(q: seq<Mail>, k: nat): seq<Mail>
    requires k <= |q|
  {
    q[|q| - k..]
  }

  /** `Longest` is what it is called: a suffix that fits, and no longer one does. */
  lemma {:induction false} LongestIsLongest(q: seq<Mail>, limits: Limits)
    ensures var s := Longest(q, limits);
            && |s| <= |q| && s == Suffix(q, |s|) && Fits(s, limits)
            && forall k: nat :: |s| < k <= |q| ==> !Fits(Suffix(q, k), limits)
    decreases |q|
  {
    if q != [] {
      hide Fits;
      if !Fits(q, limits) {
        LongestIsLongest(q[1..], limits);
        forall k: nat | |Longest(q, limits)| < k <= |q|
          ensures !Fits(Suffix(q, k), limits)
        {
          assert k < |q| ==> Suffix(q, k) == Suffix(q[1..], k);
          assert Suffix(q, |q|) == q;
        }
      }
    }
  }

  /** The two trimming loops together leave the longest suffix that fits both caps. */
  lemma {:induction false} TrimIsLongest(q: seq<Mail>, limits: Limits)
    ensures Trim(q, limits) == Longest(q, limits)
    decreases |q|
  {
    if q != [] && !Fits(q, limits) {
      TrimIsLongest(q[1..], limits);
    }
  }

  lemma {:induction false} BytesOfPush(q: seq<Mail>, m: Mail)
    ensures TotalBytes(q + [m]) == TotalBytes(q) + |m.bytes|
    decreases |q|
  {
    if q != [] {
      BytesOfPush(q[1..], m);
      assert (q + [m])[1..] == q[1..] + [m];
    }
  }

  /** Trimming after every arrival gives what trimming the whole history at the end would. */
  lemma {:induction false} LongestAgain(history: seq<Mail>, m: Mail, limits: Limits)
    ensures Longest(Longest(history, limits) + [m], limits) == Longest(history + [m], limits)
    decreases |history|
  {
    if history != [] && !Fits(history, limits) {
      BytesOfPush(history, m);
      assert (history + [m])[1..] == history[1..] + [m];
      LongestAgain(history[1..], m, limits);
    }
  }

  lemma {:induction false} FitsBehind(front: seq<Mail>, tail: seq<Mail>, limits: Limits)
    requires Fits(front + tail, limits)
    ensures Fits(tail, limits)
    decreases |front|
  {
    if front == [] {
      assert front + tail == tail;
    } else {
      assert (front + tail)[1..] == front[1..] + tail;
      FitsBehind(front[1..], tail, limits);
    }
  }

  /** In front of `tail` some end of `front` may stay, but only if all of `tail` does. */
  lemma {:induction false} LongestBehind(front: seq<Mail>, tail: seq<Mail>, limits: Limits) returns (i: nat)
    ensures i <= |front| && Longest(front + tail, limits) == front[i..] + Longest(tail, limits)
    decreases |front|
  {
    if front == [] {
      i := 0;
      assert front + tail == tail;
    } else if Fits(front + tail, limits) {
      i := 0;
      FitsBehind(front, tail, limits);
    } else {
      var j := LongestBehind(front[1..], tail, limits);
      i := j + 1;
      assert (front + tail)[1..] == front[1..] + tail;
    }
  }
}
