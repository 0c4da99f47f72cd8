/**
 Rotating inboxes: the epoch arithmetic of `core/src/inbox.rs` and the catch-up window that
 `app/lib/src/state/app_state.dart` polls.
 */
module PollWindow {
  import opened Results

  const EPOCH_SECONDS: nat := 86_400
  const MAX_POLL_EPOCHS: nat := 30

  function EpochForUnix(seconds: nat): nat {
    seconds / EPOCH_SECONDS
  }

  /** The hash of identity and epoch, as the term that names both. */
  datatype Inbox = Inbox(identity: nat, epoch: nat)

  /** `inbox_window`: one inbox per epoch of the range, oldest first. */
  function InboxWindow(identity: nat, from: nat, to: nat): seq<Inbox> {
    if from > to then [] else seq(to - from + 1, i requires 0 <= i => Inbox(identity, from + i))
  }

  /** The first epoch `_pollOnce` asks for. */
  function FirstEpoch(last: Option<nat>, current: nat): nat {
    var from: int := (if last.Some? then last.value else current) - 1;
    var floored := if from < 0 then 0 else from;
    if current + 1 - floored >= MAX_POLL_EPOCHS then current + 1 - MAX_POLL_EPOCHS else floored
  }

  /** The part of the app's state that polling keeps. */
  class Poller {
    const me: nat
    var lastPollEpoch: Option<nat>

    constructor (me: nat, stored: Option<nat>)
      ensures this.me == me && lastPollEpoch == stored
    {
      this.me, lastPollEpoch := me, stored;
    }

    /** One poll; `answered` says whether the relay could be reached. */
    method PollOnce(current: nat, answered: bool) returns (inboxes: seq<Inbox>)
      modifies this
      ensures inboxes == InboxWindow(me, FirstEpoch(old(lastPollEpoch), current), current + 1)
      ensures lastPollEpoch == if answered then Some(current) else old(lastPollEpoch)
    {
      var from: int := (if lastPollEpoch.Some? then lastPollEpoch.value else current) - 1;
      if from < 0 {
        from := 0;
      }
      if current + 1 - from >= MAX_POLL_EPOCHS {
        from := current + 1 - MAX_POLL_EPOCHS;
      }
      inboxes := [];
      var epoch: nat := from;
      while epoch <= current + 1
        invariant from <= epoch <= current + 2 || (epoch == from && from > current + 1)
        invariant |inboxes| == epoch - from
        invariant forall i :: 0 <= i < |inboxes| ==> inboxes[i] == Inbox(me, from + i)
      {
        inboxes := inboxes + [Inbox(me, epoch)];
        epoch := epoch + 1;
      }
      if answered && lastPollEpoch != Some(current) {
        lastPollEpoch := Some(current);
      }
    }
  }

  // ------------------------------------------------------------------ a run of polls

  /** A poll attempt: the receiver's epoch and whether the relay answered. */
  datatype Attempt = Attempt(epoch: nat, answered: bool)

  /** The last successful epoch after the attempts `polls`. */
  function LastPoll(stored: Option<nat>, polls: seq<Attempt>): Option<nat>
    decreases |polls|
  {
    if polls == [] then stored
    else
      var p := polls[|polls| - 1];
      if p.answered then Some(p.epoch) else LastPoll(stored, polls[..|polls| - 1])
  }

  /** The window the `k`-th attempt asks for. */
  function WindowOf(me: nat, stored: Option<nat>, polls: seq<Attempt>, k: nat): seq<Inbox>
    requires k < |polls|
  {
    InboxWindow(me, FirstEpoch(LastPoll(stored, polls[..k]), polls[k].epoch), polls[k].epoch + 1)
  }

  lemma {:induction false} LastPollIs(stored: Option<nat>, polls: seq<Attempt>, i: nat)
    requires i < |polls| && polls[i].answered
    requires forall k :: i < k < |polls| ==> !polls[k].answered
    ensures LastPoll(stored, polls) == Some(polls[i].epoch)
    decreases |polls|
  {
    if i < |polls| - 1 {
      LastPollIs(stored, polls[..|polls| - 1], i);
    }
  }

  lemma {:induction false} InWindow(me: nat, from: nat, to: nat, e: nat)
    ensures Inbox(me, e) in InboxWindow(me, from, to) <==> from <= e <= to
  {
    if from <= e <= to {
      assert InboxWindow(me, from, to)[e - from] == Inbox(me, e);
    }
  }

  /** Exactly which inboxes a poll asks for, with `since` the last successful poll's epoch or, before any,
      the current one: from the epoch before `since` to the one after the current, but none more than
      29 epochs back. They come in order, one an epoch. */
  lemma {:induction false} AsksExactly(me: nat, stored: Option<nat>, polls: seq<Attempt>, k: nat, e: nat)
    requires k < |polls|
    ensures var last, now := LastPoll(stored, polls[..k]), polls[k].epoch;
            var since := if last.Some? then last.value else now;
            Inbox(me, e) in WindowOf(me, stored, polls, k) <==> since <= e + 1 && now <= e + 29 && e <= now + 1
    ensures var window := WindowOf(me, stored, polls, k);
            forall i :: 0 <= i < |window| ==> window[i] == Inbox(me, window[0].epoch + i)
  {
    var from := FirstEpoch(LastPoll(stored, polls[..k]), polls[k].epoch);
    InWindow(me, from, polls[k].epoch + 1, e);
  }

  /** An epoch is a day. */
  lemma {:induction false} EpochIsDay(seconds: nat)
    ensures EpochForUnix(seconds) * 86_400 <= seconds < EpochForUnix(seconds) * 86_400 + 86_400
  {
  }

  /** A first poll finds mail that a clock at most a day off filed at the time of the poll. */
  lemma {:induction false} FirstPollFindsMail(me: nat, stored: Option<nat>, polls: seq<Attempt>, k: nat, polledAt: nat,
                                              senderClock: nat)
    requires k < |polls| && LastPoll(stored, polls[..k]) == None && polls[k].epoch == EpochForUnix(polledAt)
    requires polledAt <= senderClock + EPOCH_SECONDS && senderClock <= polledAt + EPOCH_SECONDS
    ensures Inbox(me, EpochForUnix(senderClock)) in WindowOf(me, stored, polls, k)
  {
    AsksExactly(me, stored, polls, k, EpochForUnix(senderClock));
  }

  /** No window asks for more than 31 inboxes. It asks for all 31 exactly from epoch 29 on and when the
      last successful poll is at least 28 epochs back, and for none exactly if the clock has run back
      more than two epochs behind that poll. */
  lemma {:induction false} WindowsAreSmall(me: nat, stored: Option<nat>, polls: seq<Attempt>, k: nat)
    requires k < |polls|
    ensures var last, now := LastPoll(stored, polls[..k]), polls[k].epoch;
            var window := WindowOf(me, stored, polls, k);
            && |window| <= MAX_POLL_EPOCHS + 1
            && (|window| == MAX_POLL_EPOCHS + 1 <==> now >= 29 && last.Some? && last.value + 28 <= now)
            && (window == [] <==> last.Some? && last.value > now + 2)
  {
  }

  /** Between successful poll `i` and the next successful poll `j`, the clock not running back,
      the window of `j` covers every sender epoch within one of the receiver's if and only if
      the receiver's epochs are not too far apart: 28 epochs always suffices. */
  lemma {:induction false} NextPollCoversExactly(me: nat, stored: Option<nat>, polls: seq<Attempt>, i: nat, j: nat)
    requires i < j < |polls| && polls[i].answered
    requires forall k :: i < k < j ==> !polls[k].answered
    requires polls[i].epoch <= polls[j].epoch
    ensures var oldest := if polls[i].epoch == 0 then 0 else polls[i].epoch - 1;
            (forall sent: nat :: oldest <= sent <= polls[j].epoch + 1 ==>
               Inbox(me, sent) in WindowOf(me, stored, polls, j))
            <==> polls[j].epoch - oldest <= 29
    ensures polls[j].epoch - polls[i].epoch <= 28 ==>
              polls[j].epoch - (if polls[i].epoch == 0 then 0 else polls[i].epoch - 1) <= 29
  {
    var oldest := if polls[i].epoch == 0 then 0 else polls[i].epoch - 1;
    LastPollIs(stored, polls[..j], i);
    var from := FirstEpoch(Some(polls[i].epoch), polls[j].epoch);
    forall sent: nat
      ensures Inbox(me, sent) in WindowOf(me, stored, polls, j) <==> from <= sent <= polls[j].epoch + 1
    {
      InWindow(me, from, polls[j].epoch + 1, sent);
    }
    assert polls[j].epoch - oldest > 29 ==> Inbox(me, oldest) !in WindowOf(me, stored, polls, j);
  }

  /** In clock time: a message sent after one successful poll and before the next, by a clock at
      most a day off, goes to an inbox the next poll asks for, if the polls are at most 28
      epochs apart. */
  lemma {:induction false} MailIsPolled(me: nat, stored: Option<nat>, polls: seq<Attempt>, i: nat, j: nat,
                                        polledAt: nat, sentAt: nat, polledNext: nat, senderClock: nat)
    requires i < j < |polls| && polls[i].answered && forall k :: i < k < j ==> !polls[k].answered
    requires polls[i].epoch == EpochForUnix(polledAt) && polls[j].epoch == EpochForUnix(polledNext)
    requires polledAt <= sentAt <= polledNext
    requires sentAt <= senderClock + EPOCH_SECONDS && senderClock <= sentAt + EPOCH_SECONDS
    requires polls[j].epoch - polls[i].epoch <= 28
    ensures Inbox(me, EpochForUnix(senderClock)) in WindowOf(me, stored, polls, j)
  {
    var oldest := if polls[i].epoch == 0 then 0 else polls[i].epoch - 1;
    assert oldest <= EpochForUnix(senderClock) <= polls[j].epoch + 1;
    NextPollCoversExactly(me, stored, polls, i, j);
  }
}
