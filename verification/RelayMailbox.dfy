/**
 What polling a mailbox returns, as a function of what was sent to it. A mailbox is its plain
 history trimmed to the caps, with the expired part filtered out when it is read; sweeping in
 between makes no difference.
 */
module RelayMailbox {
  import opened Results
  import opened RelayStore

  datatype Op =
    | Enqueued(mailbox: nat, message: Bytes, now: nat)
    | Polled(mailbox: nat, now: nat)
    | Swept(now: nat)

  function Apply(s: Inner, limits: Limits, op: Op): Inner {
    match op
    case Enqueued(b, message, now) => Enqueue(s, limits, b, message, now)
    case Polled(b, now) => Poll(s, limits, b, now).0
    case Swept(now) => Sweep(s, limits, now)
  }

  function ApplyAll(s: Inner, limits: Limits, ops: seq<Op>): Inner
    decreases |ops|
  {
    if ops == [] then s else Apply(ApplyAll(s, limits, ops[..|ops| - 1]), limits, ops[|ops| - 1])
  }

  /** The messages accepted for mailbox `b` since it was last polled, as they arrived. */
  function History(ops: seq<Op>, limits: Limits, b: nat): seq<Mail>
    decreases |ops|
  {
    if ops == [] then []
    else
      var past := History(ops[..|ops| - 1], limits, b);
      match ops[|ops| - 1]
      case Enqueued(to, message, now) =>
        if to == b && |message| <= limits.maxMessage then past + [Mail(now, message)] else past
      case Polled(from, _) => if from == b then [] else past
      case Swept(_) => past
  }

  /** Op times never decrease and none is later than `now`. */
  ghost predicate InOrder(ops: seq<Op>, now: nat) {
    && (forall i, j :: 0 <= i < j < |ops| ==> ops[i].now <= ops[j].now)
    && (forall i :: 0 <= i < |ops| ==> ops[i].now <= now)
  }

  // ------------------------------------------------------------------ without sweeps

  /** As long as nobody sweeps, a mailbox holds exactly the longest suffix of its history that
      fits both caps, whatever the caps and the clock. */
  lemma {:induction false} QueueIsLongestSuffix(limits: Limits, ops: seq<Op>, b: nat)
    requires forall i :: 0 <= i < |ops| ==> !ops[i].Swept?
    ensures QueueOf(ApplyAll(EMPTY, limits, ops), b) == Longest(History(ops, limits, b), limits)
    decreases |ops|
  {
    if ops != [] {
      var past := ops[..|ops| - 1];
      QueueIsLongestSuffix(limits, past, b);
      var mid := ApplyAll(EMPTY, limits, past);
      match ops[|ops| - 1]
      case Enqueued(to, message, now) =>
        TrimIsLongest(QueueOf(mid, to) + [Mail(now, message)], limits);
        LongestAgain(History(past, limits, b), Mail(now, message), limits);
      case Polled(from, _) =>
      case Swept(_) =>
    }
  }

  // ------------------------------------------------------------------ with sweeps

  ghost predicate Sorted(q: seq<Mail>, now: nat) {
    && (forall i, j :: 0 <= i < j < |q| ==> q[i].at <= q[j].at)
    && (forall i :: 0 <= i < |q| ==> q[i].at <= now)
  }

  ghost predicate Expired(q: seq<Mail>, cutoff: nat) {
    forall i :: 0 <= i < |q| ==> q[i].at < cutoff
  }

  lemma {:induction false} UnexpiredAppend(q: seq<Mail>, r: seq<Mail>, cutoff: nat)
    ensures Unexpired(q + r, cutoff) == Unexpired(q, cutoff) + Unexpired(r, cutoff)
    decreases |r|
  {
    if r == [] {
      assert q + r == q;
    } else {
      assert (q + r)[..|q + r| - 1] == q + r[..|r| - 1];
      UnexpiredAppend(q, r[..|r| - 1], cutoff);
    }
  }

  lemma {:induction false} ExpiredGone(q: seq<Mail>, cutoff: nat)
    requires Expired(q, cutoff)
    ensures Unexpired(q, cutoff) == []
    decreases |q|
  {
    if q != [] {
      ExpiredGone(q[..|q| - 1], cutoff);
    }
  }

  /** In a queue filled by a clock that never runs back, the expired messages come first. */
  lemma {:induction false} ExpiredComeFirst(q: seq<Mail>, now: nat, cutoff: nat) returns (i: nat)
    requires Sorted(q, now)
    ensures i <= |q| && Expired(q[..i], cutoff) && Unexpired(q, cutoff) == q[i..]
    decreases |q|
  {
    if q == [] {
      i := 0;
    } else {
      var n := |q| - 1;
      if q[n].at >= cutoff {
        i := ExpiredComeFirst(q[..n], now, cutoff);
        hide Sorted, Expired;
        assert q[..n][..i] == q[..i];
        assert q[..n][i..] + [q[n]] == q[i..];
      } else {
        i := n + 1;
        assert Expired(q, cutoff);
        hide Sorted, Expired;
        ExpiredGone(q, cutoff);
        assert q[..i] == q;
      }
    }
  }

  lemma {:induction false} HistorySorted(ops: seq<Op>, limits: Limits, b: nat, now: nat)
    requires InOrder(ops, now)
    ensures Sorted(History(ops, limits, b), now)
    decreases |ops|
  {
    if ops != [] {
      var past, last := ops[..|ops| - 1], ops[|ops| - 1];
      HistorySorted(past, limits, b, last.now);
    }
  }

  /** The mailbox is the trimmed history less a front part that has expired by `now`. */
  ghost predicate SweptView(q: seq<Mail>, history: seq<Mail>, dropped: seq<Mail>, limits: Limits, now: nat) {
    Longest(history, limits) == dropped + q && Expired(dropped, Cutoff(limits, now))
  }

  lemma {:induction false} EnqueueView(q: seq<Mail>, history: seq<Mail>, dropped: seq<Mail>, limits: Limits,
                                       then': nat, m: Mail, now: nat)
    returns (next: seq<Mail>)
    requires SweptView(q, history, dropped, limits, then') && then' <= now
    ensures SweptView(Trim(q + [m], limits), history + [m], next, limits, now)
  {
    LongestAgain(history, m, limits);
    TrimIsLongest(q + [m], limits);
    assert dropped + q + [m] == dropped + (q + [m]);
    var i := LongestBehind(dropped, q + [m], limits);
    next := dropped[i..];
  }

  lemma {:induction false} SweepView(q: seq<Mail>, history: seq<Mail>, dropped: seq<Mail>, limits: Limits, then': nat,
                                     now: nat)
    returns (next: seq<Mail>)
    requires SweptView(q, history, dropped, limits, then') && then' <= now && Sorted(q, now)
    ensures SweptView(Unexpired(q, Cutoff(limits, now)), history, next, limits, now)
  {
    var i := ExpiredComeFirst(q, now, Cutoff(limits, now));
    next := dropped + q[..i];
    assert dropped + q == dropped + q[..i] + q[i..];
  }

  /** After any operations, sweeps at arbitrary points included. */
  lemma {:induction false} MailboxView(limits: Limits, ops: seq<Op>, b: nat, now: nat) returns (dropped: seq<Mail>)
    requires InOrder(ops, now)
    ensures SweptView(QueueOf(ApplyAll(EMPTY, limits, ops), b), History(ops, limits, b), dropped, limits, now)
    decreases |ops|
  {
    if ops == [] {
      dropped := [];
    } else {
      var past, op := ops[..|ops| - 1], ops[|ops| - 1];
      var before := MailboxView(limits, past, b, op.now);
      var mid := ApplyAll(EMPTY, limits, past);
      var q, history := QueueOf(mid, b), History(past, limits, b);
      dropped := before;
      match op {
        case Enqueued(to, message, at) =>
          if to == b && |message| <= limits.maxMessage {
            dropped := EnqueueView(q, history, before, limits, op.now, Mail(at, message), now);
          }
        case Polled(from, _) =>
          if from == b {
            dropped := [];
          }
        case Swept(at) =>
          QueueSorted(q, history, before, limits, past, b, at);
          dropped := SweepView(q, history, before, limits, at, at);
      }
    }
  }

  lemma {:induction false} QueueSorted(q: seq<Mail>, history: seq<Mail>, dropped: seq<Mail>, limits: Limits,
                                       ops: seq<Op>, b: nat, now: nat)
    requires InOrder(ops, now) && history == History(ops, limits, b)
    requires SweptView(q, history, dropped, limits, now)
    ensures Sorted(q, now)
  {
    HistorySorted(ops, limits, b, now);
    LongestIsLongest(history, limits);
    assert q == Longest(history, limits)[|dropped|..];
    assert q == Suffix(history, |q|);
    SuffixSorted(history, |q|, now);
  }

  lemma {:induction false} SuffixSorted(q: seq<Mail>, k: nat, now: nat)
    requires k <= |q| && Sorted(q, now)
    ensures Sorted(Suffix(q, k), now)
  {
  }

  /** What a poll returns: the messages accepted since the last poll, trimmed to the longest
      suffix within the caps, without the expired ones, in order. Sweeps leave no trace. */
  lemma {:induction false} PollReturnsHistory(limits: Limits, ops: seq<Op>, b: nat, now: nat)
    requires InOrder(ops, now)
    ensures var (after, messages) := Poll(ApplyAll(EMPTY, limits, ops), limits, b, now);
            && messages == Contents(Unexpired(Longest(History(ops, limits, b), limits), Cutoff(limits, now)))
            && QueueOf(after, b) == []
  {
    var dropped := MailboxView(limits, ops, b, now);
    var q := QueueOf(ApplyAll(EMPTY, limits, ops), b);
    UnexpiredAppend(dropped, q, Cutoff(limits, now));
    ExpiredGone(dropped, Cutoff(limits, now));
  }

  /** The same, message by message: those of the trimmed history that are at most the time to live old,
      and since the clock never runs back these are its last ones. */
  lemma {:induction false} PollReturnsYoung(limits: Limits, ops: seq<Op>, b: nat, now: nat) returns (first: nat)
    requires InOrder(ops, now)
    ensures var q := Longest(History(ops, limits, b), limits);
            var messages := Poll(ApplyAll(EMPTY, limits, ops), limits, b, now).1;
            && first <= |q| && |messages| == |q| - first
            && (forall i :: 0 <= i < |messages| ==> messages[i] == q[first + i].bytes)
            && (forall k :: 0 <= k < |q| ==> (first <= k <==> now <= q[k].at + limits.mailTtl))
  {
    hide History, Longest, ApplyAll, Unexpired, Sorted, Expired, Poll;
    var history := History(ops, limits, b);
    var q := Longest(history, limits);
    PollReturnsHistory(limits, ops, b, now);
    assert Sorted(q, now) by {
      HistorySorted(ops, limits, b, now);
      LongestIsLongest(history, limits);
      SuffixSorted(history, |q|, now);
    }
    first := YoungComeLast(q, limits, now);
  }

  lemma {:induction false} YoungComeLast(q: seq<Mail>, limits: Limits, now: nat) returns (first: nat)
    requires Sorted(q, now)
    ensures first <= |q| && Unexpired(q, Cutoff(limits, now)) == q[first..]
    ensures forall k :: 0 <= k < |q| ==> (first <= k <==> now <= q[k].at + limits.mailTtl)
  {
    hide Unexpired;
    first := ExpiredComeFirst(q, now, Cutoff(limits, now));
    assert forall k :: 0 <= k < first ==> q[..first][k] == q[k];
    if first < |q| {
      FirstIsYoung(q, first, limits, now);
    }
  }

  lemma {:induction false} FirstIsYoung(q: seq<Mail>, first: nat, limits: Limits, now: nat)
    requires Sorted(q, now) && first < |q| && Unexpired(q, Cutoff(limits, now)) == q[first..]
    ensures forall k :: first <= k < |q| ==> now <= q[k].at + limits.mailTtl
  {
    hide Unexpired;
    var at := UnexpiredIsYoung(q, limits, now);
    assert |at| == |q| - first && at[0] in at;
    assert q[at[0]] == q[first..][0];
    assert now <= q[first].at + limits.mailTtl;
  }

  function WithoutSweeps(ops: seq<Op>): seq<Op>
    decreases |ops|
  {
    if ops == [] then []
    else
      var past := WithoutSweeps(ops[..|ops| - 1]);
      if ops[|ops| - 1].Swept? then past else past + [ops[|ops| - 1]]
  }

  lemma {:induction false} WithoutSweepsKeeps(ops: seq<Op>, limits: Limits, b: nat, now: nat)
    requires InOrder(ops, now)
    ensures InOrder(WithoutSweeps(ops), now)
    ensures History(WithoutSweeps(ops), limits, b) == History(ops, limits, b)
    decreases |ops|
  {
    if ops != [] {
      var past, op := ops[..|ops| - 1], ops[|ops| - 1];
      WithoutSweepsKeeps(past, limits, b, op.now);
      if !op.Swept? {
        var kept := WithoutSweeps(past);
        assert (kept + [op])[..|kept|] == kept;
      }
    }
  }

  /** Two stores given the same enqueues and polls, one of them swept at arbitrary points, answer
      every poll alike. */
  lemma {:induction false} SweepingIsInvisible(limits: Limits, ops: seq<Op>, b: nat, now: nat)
    requires InOrder(ops, now)
    ensures Poll(ApplyAll(EMPTY, limits, ops), limits, b, now).1 ==
            Poll(ApplyAll(EMPTY, limits, WithoutSweeps(ops)), limits, b, now).1
  {
    WithoutSweepsKeeps(ops, limits, b, now);
    PollReturnsHistory(limits, ops, b, now);
    PollReturnsHistory(limits, WithoutSweeps(ops), b, now);
  }
}
