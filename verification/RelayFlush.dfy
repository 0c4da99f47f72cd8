/**
 The relay's persistence under concurrency. Mutators change the store under one lock and then
 mark it dirty under another; a flusher holds the second lock from its check to the end and
 takes the first only to copy the store. Each lock-delimited piece is one atomic step of some
 thread, and threads interleave freely. The file is one cell, replaced atomically.
 */
module RelayFlush {
  import opened Results
  import opened Identity
  import opened RelayStore

  /** Where a thread is. `taken` is the moment at which a snapshot was copied. */
  datatype Thread =
    | Idle
    | Dirtying
    | Holding
    | Copied(snapshot: Inner, taken: nat)
    | Renamed

  type Timeline = s: seq<Inner> | s != [] witness [EMPTY]

  /** `past` lists every value the store has had; the file holds the one at `fileAt`. */
  datatype World = World(
    inner: Inner, file: Inner, dirty: bool, threads: seq<Thread>, past: Timeline, fileAt: nat)

  datatype Action =
    | Mutate(m: Mutation)
    | Mark
    | ForceDirty
    | BeginFlush(due: bool)
    | Copy
    | Rename
    | EndFlush
    | FailFlush

  predicate HoldsLock(t: Thread) {
    t.Holding? || t.Copied? || t.Renamed?
  }

  predicate LockFree(w: World) {
    forall t: nat :: t < |w.threads| ==> !HoldsLock(w.threads[t])
  }

  predicate Enabled(w: World, t: nat, a: Action) {
    && t < |w.threads|
    && match a
       case Mutate(_) => w.threads[t].Idle?
       case Mark => w.threads[t].Dirtying? && LockFree(w)
       case ForceDirty => w.threads[t].Idle? && LockFree(w)
       case BeginFlush(_) => w.threads[t].Idle? && LockFree(w)
       case Copy => w.threads[t].Holding?
       case Rename => w.threads[t].Copied?
       case EndFlush => w.threads[t].Renamed?
       case FailFlush => w.threads[t].Holding? || w.threads[t].Copied?
  }

  function Act(w: World, limits: Limits, t: nat, a: Action): World
    requires Enabled(w, t, a)
  {
    match a
    case Mutate(m) =>
      var inner := Mutated(w.inner, limits, m);
      w.(inner := inner, past := w.past + [inner],
         threads := if Marks(w.inner, limits, m) then w.threads[t := Dirtying] else w.threads)
    case Mark => w.(dirty := true, threads := w.threads[t := Idle])
    case ForceDirty => w.(dirty := true)
    case BeginFlush(due) => if w.dirty && due then w.(threads := w.threads[t := Holding]) else w
    case Copy => w.(threads := w.threads[t := Copied(w.inner, |w.past| - 1)])
    case Rename =>
      w.(file := w.threads[t].snapshot, fileAt := w.threads[t].taken, threads := w.threads[t := Renamed])
    case EndFlush => w.(dirty := false, threads := w.threads[t := Idle])
    case FailFlush => w.(threads := w.threads[t := Idle])
  }

  /** A freshly opened store: the file, if it existed, is what was loaded. */
  function Opened(loaded: Inner, threads: nat): World {
    World(loaded, loaded, false, seq(threads, i => Idle), [loaded], 0)
  }

  ghost predicate Interleaving(w: World, limits: Limits, actions: seq<(nat, Action)>, last: World)
    decreases |actions|
  {
    if actions == [] then w == last
    else
      && Enabled(w, actions[0].0, actions[0].1)
      && Interleaving(Act(w, limits, actions[0].0, actions[0].1), limits, actions[1..], last)
  }

  // ------------------------------------------------------------------ the invariant

  /** Equal up to mailboxes that are present but empty. */
  ghost predicate SameMail(a: Inner, b: Inner) {
    a.keys == b.keys && forall box: nat :: QueueOf(a, box) == QueueOf(b, box)
  }

  /** Some thread has changed the store and not marked it yet. */
  ghost predicate Unmarked(w: World) {
    exists t: nat :: t < |w.threads| && w.threads[t].Dirtying?
  }

  ghost predicate ThreadOk(w: World, t: nat)
    requires t < |w.threads|
  {
    match w.threads[t]
    case Idle => true
    case Dirtying => true
    case Holding => w.dirty
    case Copied(snapshot, taken) =>
      && w.dirty && w.fileAt <= taken < |w.past| && snapshot == w.past[taken]
      && (SameMail(snapshot, w.inner) || Unmarked(w))
    case Renamed => w.dirty && (SameMail(w.file, w.inner) || Unmarked(w))
  }

  ghost predicate FlushInv(w: World) {
    && w.past[|w.past| - 1] == w.inner
    && w.fileAt < |w.past| && w.file == w.past[w.fileAt]
    && (forall t, u :: 0 <= t < u < |w.threads| ==> !(HoldsLock(w.threads[t]) && HoldsLock(w.threads[u])))
    && (forall t: nat :: t < |w.threads| ==> ThreadOk(w, t))
    && (!w.dirty ==> SameMail(w.file, w.inner) || Unmarked(w))
  }

  /** An operation that does not mark the store dirty changes at most empty mailboxes. */
  lemma {:induction false} UnmarkedIsInvisible(s: Inner, limits: Limits, m: Mutation)
    requires !Marks(s, limits, m)
    ensures SameMail(s, Mutated(s, limits, m))
  {
    match m
    case Publishing(_, _) =>
    case Fetching(_) =>
    case Enqueuing(_, _, _) =>
    case Polling(_, _) =>
    case Sweeping(now) =>
      forall box: nat
        ensures QueueOf(s, box) == QueueOf(Sweep(s, limits, now), box)
      {
        if box in s.queues {
          assert Unexpired(s.queues[box], Cutoff(limits, now)) == s.queues[box];
        }
      }
  }

  lemma {:induction false} MutateKeepsInv(w: World, limits: Limits, t: nat, m: Mutation)
    requires FlushInv(w) && Enabled(w, t, Mutate(m))
    ensures FlushInv(Act(w, limits, t, Mutate(m)))
  {
    var after := Act(w, limits, t, Mutate(m));
    if Marks(w.inner, limits, m) {
      assert after.threads[t].Dirtying?;
      assert Unmarked(after);
    } else {
      UnmarkedIsInvisible(w.inner, limits, m);
      assert Unmarked(w) ==> Unmarked(after);
    }
    forall u: nat | u < |after.threads|
      ensures ThreadOk(after, u)
    {
      assert ThreadOk(w, u);
    }
  }

  lemma {:induction false} LockStepKeepsInv(w: World, limits: Limits, t: nat, a: Action)
    requires FlushInv(w) && Enabled(w, t, a) && !a.Mutate?
    ensures FlushInv(Act(w, limits, t, a))
  {
    var after := Act(w, limits, t, a);
    assert ThreadOk(w, t);
    if !a.Mark? {
      assert forall u: nat :: u < |w.threads| ==> (w.threads[u].Dirtying? <==> after.threads[u].Dirtying?);
      assert Unmarked(w) ==> Unmarked(after);
    }
    forall u: nat | u < |after.threads|
      ensures ThreadOk(after, u)
    {
      assert ThreadOk(w, u);
      assert u < t || t < u ==> !(HoldsLock(w.threads[u]) && HoldsLock(w.threads[t]));
    }
  }

  lemma {:induction false} InterleavingKeepsInv(w: World, limits: Limits, actions: seq<(nat, Action)>, last: World)
    requires FlushInv(w) && Interleaving(w, limits, actions, last)
    ensures FlushInv(last) && w.fileAt <= last.fileAt && |w.past| <= |last.past|
    ensures last.past[..|w.past|] == w.past
    decreases |actions|
  {
    if actions != [] {
      var (t, a) := actions[0];
      var next := Act(w, limits, t, a);
      assert ThreadOk(w, t);
      match a {
        case Mutate(m) => MutateKeepsInv(w, limits, t, m);
        case _ => LockStepKeepsInv(w, limits, t, a);
      }
      InterleavingKeepsInv(next, limits, actions[1..], last);
    }
  }

  // ------------------------------------------------------------------ what the protocol guarantees

  /** Whenever the store is clean and no mutator is between its two locks, the file has all its
      mail and keys; and at every moment the file is the store as it was at some moment. */
  lemma {:induction false} CleanMeansSaved(loaded: Inner, threads: nat, limits: Limits, actions: seq<(nat, Action)>,
                                           w: World)
    requires Interleaving(Opened(loaded, threads), limits, actions, w)
    ensures !w.dirty && (forall t: nat :: t < |w.threads| ==> !w.threads[t].Dirtying?) ==> SameMail(w.file, w.inner)
    ensures w.fileAt < |w.past| && w.file == w.past[w.fileAt] && w.inner == w.past[|w.past| - 1]
  {
    assert FlushInv(Opened(loaded, threads));
    InterleavingKeepsInv(Opened(loaded, threads), limits, actions, w);
  }

  /** The file never goes back: of two moments of a run, the later finds it at the same or a
      later value of the store. */
  lemma {:induction false} FileMovesForward(loaded: Inner, threads: nat, limits: Limits, first: seq<(nat, Action)>,
                                            v: World,
                                            more: seq<(nat, Action)>, w: World)
    requires Interleaving(Opened(loaded, threads), limits, first, v) && Interleaving(v, limits, more, w)
    ensures v.fileAt <= w.fileAt < |w.past| && v.past <= w.past && w.file == w.past[w.fileAt]
  {
    assert FlushInv(Opened(loaded, threads));
    InterleavingKeepsInv(Opened(loaded, threads), limits, first, v);
    InterleavingKeepsInv(v, limits, more, w);
  }

  /** The four steps of one flush by thread `t`. */
  function FlushBy(t: nat): seq<(nat, Action)> {
    [(t, BeginFlush(true)), (t, Copy), (t, Rename), (t, EndFlush)]
  }

  /** An undisturbed flush of a dirty store leaves the file up to date and the store clean. */
  lemma {:induction false} FlushSaves(w: World, limits: Limits, t: nat)
    requires FlushInv(w) && t < |w.threads| && w.threads[t].Idle? && LockFree(w) && w.dirty
    ensures Interleaving(w, limits, FlushBy(t), w.(file := w.inner, fileAt := |w.past| - 1, dirty := false))
  {
    var w1 := Act(w, limits, t, BeginFlush(true));
    var w2 := Act(w1, limits, t, Copy);
    var w3 := Act(w2, limits, t, Rename);
    var w4 := Act(w3, limits, t, EndFlush);
    assert w4.threads == w.threads;
    var after1: seq<(nat, Action)> := FlushBy(t)[1..];
    var after2: seq<(nat, Action)> := after1[1..];
    var after3: seq<(nat, Action)> := after2[1..];
    assert Interleaving(w4, limits, after3[1..], w4);
    assert Interleaving(w3, limits, after3, w4);
    assert Interleaving(w2, limits, after2, w4);
    assert Interleaving(w1, limits, after1, w4);
  }
  /** A forced flush leaves the file up to date even if the store was not marked. */
  lemma {:induction false} ForcedFlushSaves(w: World, limits: Limits, t: nat)
    requires FlushInv(w) && t < |w.threads| && w.threads[t].Idle? && LockFree(w)
    ensures Interleaving(w, limits, [(t, ForceDirty)] + FlushBy(t),
                         w.(file := w.inner, fileAt := |w.past| - 1, dirty := false))
  {
    var forced := Act(w, limits, t, ForceDirty);
    LockStepKeepsInv(w, limits, t, ForceDirty);
    FlushSaves(forced, limits, t);
    var actions: seq<(nat, Action)> := [(t, ForceDirty)] + FlushBy(t);
    assert actions[1..] == FlushBy(t);
  }

  /** A flush that finds the store clean, or comes too early, does nothing. */
  lemma {:induction false} EarlyFlushDoesNothing(w: World, limits: Limits, t: nat, due: bool)
    requires Enabled(w, t, BeginFlush(due))
    ensures Act(w, limits, t, BeginFlush(due)) == w <==> !w.dirty || !due
  {
    assert w.threads[t] == Idle;
  }
}
