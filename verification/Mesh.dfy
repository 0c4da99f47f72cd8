/**
 One node of the store-carry-forward mesh, `mesh/src/lib.rs`: flood, dedup, carry-forward and the
 two bounded first-in-first-out memories. Message ids, random in the source, are parameters.
 */
module Mesh {
  import opened Results

  const SEEN_CAP: nat := 8192
  const STORE_CAP: nat := 2048

  /** The hop budget is a `u8`. */
  type Ttl = x: nat | x < 256

  datatype Frame = Frame(msgId: nat, recipient: nat, ttl: Ttl, payload: Bytes)

  datatype Reception = Duplicate | Accepted(forMe: bool, willForward: bool)

  datatype Node = Node(
    me: nat, ttl: Ttl,
    seen: set<nat>, seenOrder: seq<nat>,
    store: map<nat, Frame>, storeOrder: seq<nat>,
    inbox: seq<Bytes>)

  function NewNode(me: nat, ttl: Ttl): Node {
    Node(me, ttl, {}, [], map[], [], [])
  }

  function MarkSeen(n: Node, id: nat): Node {
    if id in n.seen then n
    else
      var order := n.seenOrder + [id];
      if |order| > SEEN_CAP then n.(seen := n.seen + {id} - {order[0]}, seenOrder := order[1..])
      else n.(seen := n.seen + {id}, seenOrder := order)
  }

  function StoreFrame(n: Node, frame: Frame): Node {
    var id := frame.msgId;
    if id in n.store then n.(store := n.store[id := frame])
    else
      var order := n.storeOrder + [id];
      if |order| > STORE_CAP then n.(store := n.store[id := frame] - {order[0]}, storeOrder := order[1..])
      else n.(store := n.store[id := frame], storeOrder := order)
  }

  function Originate(n: Node, id: nat, recipient: nat, payload: Bytes): (Node, Frame) {
    var frame := Frame(id, recipient, n.ttl, payload);
    (StoreFrame(MarkSeen(n, id), frame), frame)
  }

  /** The decremented copy a node keeps of an accepted frame, if any budget is left. */
  function Onward(frame: Frame): Option<Frame> {
    if frame.ttl > 1 then Some(frame.(ttl := frame.ttl - 1)) else None
  }

  function Handle(n: Node, frame: Frame): (Node, Reception) {
    if frame.msgId in n.seen then (n, Duplicate)
    else
      var marked := MarkSeen(n, frame.msgId);
      var forMe := frame.recipient == n.me;
      var delivered := if forMe then marked.(inbox := marked.inbox + [frame.payload]) else marked;
      var onward := Onward(frame);
      (if onward.Some? then StoreFrame(delivered, onward.value) else delivered, Accepted(forMe, onward.Some?))
  }

  /** The carry-forward store in the order its frames were first stored. */
  function Offers(order: seq<nat>, store: map<nat, Frame>): seq<Frame>
    decreases |order|
  {
    if order == [] then []
    else
      var rest := Offers(order[..|order| - 1], store);
      var id := order[|order| - 1];
      if id in store then rest + [store[id]] else rest
  }

  function Outbound(n: Node): seq<Frame> {
    Offers(n.storeOrder, n.store)
  }

  // ------------------------------------------------------------------ the class

  class MeshNode {
    const me: nat
    const ttl: Ttl
    var seen: set<nat>
    var seenOrder: seq<nat>
    var store: map<nat, Frame>
    var storeOrder: seq<nat>
    var inbox: seq<Bytes>

    function Value(): Node
      reads this
    {
      Node(me, ttl, seen, seenOrder, store, storeOrder, inbox)
    }

    constructor WithTtl(me: nat, ttl: Ttl)
      ensures Value() == NewNode(me, ttl)
    {
      this.me, this.ttl := me, ttl;
      seen, seenOrder, store, storeOrder, inbox := {}, [], map[], [], [];
    }

    method OriginateMessage(id: nat, recipient: nat, payload: Bytes) returns (frame: Frame)
      modifies this
      ensures (Value(), frame) == Originate(old(Value()), id, recipient, payload)
    {
      frame := Frame(id, recipient, ttl, payload);
      Mark(id);
      Keep(frame);
    }

    method HandleIncoming(frame: Frame) returns (r: Reception)
      modifies this
      ensures (Value(), r) == Handle(old(Value()), frame)
    {
      if frame.msgId in seen {
        return Duplicate;
      }
      Mark(frame.msgId);
      var forMe := frame.recipient == me;
      if forMe {
        inbox := inbox + [frame.payload];
      }
      var forwardTtl := if frame.ttl == 0 then 0 else frame.ttl - 1;
      var willForward := forwardTtl > 0;
      if willForward {
        Keep(frame.(ttl := forwardTtl));
      }
      return Accepted(forMe, willForward);
    }

    method OutboundFrames() returns (frames: seq<Frame>)
      ensures frames == Outbound(Value())
    {
      frames := [];
      for i := 0 to |storeOrder|
        invariant frames == Offers(storeOrder[..i], store)
      {
        assert storeOrder[..i + 1][..i] == storeOrder[..i];
        if storeOrder[i] in store {
          frames := frames + [store[storeOrder[i]]];
        }
      }
      assert storeOrder[..|storeOrder|] == storeOrder;
    }

    method TakeInbox() returns (payloads: seq<Bytes>)
      modifies this`inbox
      ensures payloads == old(inbox) && Value() == old(Value()).(inbox := [])
    {
      payloads := inbox;
      inbox := [];
    }

    method Mark(id: nat)
      modifies this`seen, this`seenOrder
      ensures Value() == MarkSeen(old(Value()), id)
    {
      if id !in seen {
        seen := seen + {id};
        seenOrder := seenOrder + [id];
        if |seenOrder| > SEEN_CAP {
          var oldest := seenOrder[0];
          seenOrder := seenOrder[1..];
          seen := seen - {oldest};
        }
      }
    }

    method Keep(frame: Frame)
      modifies this`store, this`storeOrder
      ensures Value() == StoreFrame(old(Value()), frame)
    {
      var id := frame.msgId;
      var isNew := id !in store;
      store := store[id := frame];
      if isNew {
        storeOrder := storeOrder + [id];
        if |storeOrder| > STORE_CAP {
          var oldest := storeOrder[0];
          storeOrder := storeOrder[1..];
          store := store - {oldest};
        }
      }
    }
  }

  // ------------------------------------------------------------------ what a node keeps

  ghost predicate NoDups(s: seq<nat>) {
    forall i, j :: 0 <= i < j < |s| ==> s[i] != s[j]
  }

  function Elements(s: seq<nat>): set<nat> {
    set i | 0 <= i < |s| :: s[i]
  }

  lemma {:induction false} ElementsPush(s: seq<nat>, x: nat)
    ensures Elements(s + [x]) == Elements(s) + {x}
  {
    assert forall i :: 0 <= i < |s| ==> (s + [x])[i] == s[i];
    assert (s + [x])[|s|] == x;
  }

  lemma {:induction false} DistinctCount(s: seq<nat>)
    requires NoDups(s)
    ensures |Elements(s)| == |s|
  {
    if s != [] {
      var n := |s| - 1;
      DistinctCount(s[..n]);
      assert Elements(s) == Elements(s[..n]) + {s[n]};
    }
  }

  lemma {:induction false} DistinctWithin(s: seq<nat>, all: set<nat>)
    requires NoDups(s) && Elements(s) <= all
    ensures |s| <= |all|
  {
    DistinctCount(s);
    SubsetSize(Elements(s), all);
  }

  lemma {:induction false} SubsetSize(a: set<nat>, b: set<nat>)
    requires a <= b
    ensures |a| <= |b|
  {
    assert b == a + (b - a);
  }

  /** Both memories agree with their queues, and each copy is filed under its own id. */
  ghost predicate NodeOk(n: Node) {
    && NoDups(n.seenOrder) && n.seen == Elements(n.seenOrder) && |n.seenOrder| <= SEEN_CAP
    && NoDups(n.storeOrder) && n.store.Keys == Elements(n.storeOrder) && |n.storeOrder| <= STORE_CAP
    && (forall id :: id in n.store ==> n.store[id].msgId == id)
  }

  lemma {:induction false} MarkSeenKeeps(n: Node, id: nat)
    requires NodeOk(n)
    ensures NodeOk(MarkSeen(n, id))
    ensures MarkSeen(n, id) == n.(seen := MarkSeen(n, id).seen, seenOrder := MarkSeen(n, id).seenOrder)
    ensures MarkSeen(n, id).seen <= n.seen + {id} && id in MarkSeen(n, id).seen
  {
    if id !in n.seen {
      var order := n.seenOrder + [id];
      ElementsPush(n.seenOrder, id);
      if |order| > SEEN_CAP {
      }
    }
  }

  lemma {:induction false} StoreFrameKeeps(n: Node, frame: Frame)
    requires NodeOk(n)
    ensures NodeOk(StoreFrame(n, frame))
    ensures StoreFrame(n, frame) ==
            n.(store := StoreFrame(n, frame).store, storeOrder := StoreFrame(n, frame).storeOrder)
    ensures StoreFrame(n, frame).store.Keys <= n.store.Keys + {frame.msgId}
    ensures forall id :: id in StoreFrame(n, frame).store ==>
              StoreFrame(n, frame).store[id] == if id == frame.msgId then frame else n.store[id]
  {
    if frame.msgId !in n.store {
      var order := n.storeOrder + [frame.msgId];
      ElementsPush(n.storeOrder, frame.msgId);
      if |order| > STORE_CAP {
      }
    } else {
      assert n.store[frame.msgId := frame].Keys == n.store.Keys;
    }
  }

  lemma {:induction false} OriginateKeeps(n: Node, id: nat, recipient: nat, payload: Bytes)
    requires NodeOk(n)
    ensures NodeOk(Originate(n, id, recipient, payload).0)
  {
    MarkSeenKeeps(n, id);
    StoreFrameKeeps(MarkSeen(n, id), Frame(id, recipient, n.ttl, payload));
  }

  lemma {:induction false} HandleKeeps(n: Node, frame: Frame)
    requires NodeOk(n)
    ensures NodeOk(Handle(n, frame).0)
  {
    if frame.msgId !in n.seen {
      MarkSeenKeeps(n, frame.msgId);
      var marked := MarkSeen(n, frame.msgId);
      var delivered := if frame.recipient == n.me then marked.(inbox := marked.inbox + [frame.payload]) else marked;
      if Onward(frame).Some? {
        StoreFrameKeeps(delivered, Onward(frame).value);
      }
    }
  }

  /** A node offers each frame of its store once, and nothing else. */
  lemma {:induction false} OffersAreStore(order: seq<nat>, store: map<nat, Frame>)
    requires NoDups(order) && forall i :: 0 <= i < |order| && order[i] in store ==> store[order[i]].msgId == order[i]
    ensures var fs := Offers(order, store);
            && (forall f :: f in fs <==> f.msgId in order && f.msgId in store && store[f.msgId] == f)
            && (forall i, j :: 0 <= i < j < |fs| ==> fs[i].msgId != fs[j].msgId)
  {
    if order != [] {
      var n := |order| - 1;
      OffersAreStore(order[..n], store);
      var rest := Offers(order[..n], store);
      assert forall i :: 0 <= i < |rest| ==> rest[i] in rest;
      assert order == order[..n] + [order[n]];
    }
  }

  // ------------------------------------------------------------------ what one call does

  /** The new frame is always kept, under its id, as the newest unless the id was carried already. A full
      store makes room by giving up its oldest, and nothing else is ever lost. */
  lemma {:induction false} KeepsExactly(n: Node, frame: Frame)
    requires NodeOk(n)
    ensures var after := StoreFrame(n, frame);
            var full := frame.msgId !in n.store && |n.storeOrder| == STORE_CAP;
            && frame.msgId in after.store && after.store[frame.msgId] == frame
            && (forall id :: id != frame.msgId ==>
                  (id in after.store <==> id in n.store && !(full && id == n.storeOrder[0])))
            && (forall id :: id in after.store && id != frame.msgId ==> after.store[id] == n.store[id])
            && after.storeOrder ==
               (if frame.msgId in n.store then n.storeOrder
                else (if full then n.storeOrder[1..] else n.storeOrder) + [frame.msgId])
            && after == n.(store := after.store, storeOrder := after.storeOrder)
  {
    if frame.msgId !in n.store && |n.storeOrder| == STORE_CAP {
      assert (n.storeOrder + [frame.msgId])[1..] == n.storeOrder[1..] + [frame.msgId];
      assert n.storeOrder[0] in Elements(n.storeOrder);
    }
  }

  /** A sent message goes out with the node's budget, is marked and carried, and delivered to nobody. */
  lemma {:induction false} OriginatesExactly(n: Node, id: nat, recipient: nat, payload: Bytes)
    requires NodeOk(n)
    ensures var (after, frame) := Originate(n, id, recipient, payload);
            && frame == Frame(id, recipient, n.ttl, payload)
            && id in after.seen && id in after.store && after.store[id] == frame && after.inbox == n.inbox
  {
    MarkSeenKeeps(n, id);
    KeepsExactly(MarkSeen(n, id), Frame(id, recipient, n.ttl, payload));
  }

  /** What is reported of a frame, and what is done with it: nothing if its id was seen; otherwise it is
      marked, delivered exactly at its recipient, and carried on with one hop less exactly if that
      leaves any. */
  lemma {:induction false} HandlesExactly(n: Node, frame: Frame)
    requires NodeOk(n)
    ensures var (after, r) := Handle(n, frame);
            && (r == Duplicate <==> frame.msgId in n.seen) && (r == Duplicate ==> after == n)
            && (r != Duplicate ==>
                  && r == Accepted(frame.recipient == n.me, frame.ttl >= 2) && frame.msgId in after.seen
                  && after.inbox == n.inbox + (if frame.recipient == n.me then [frame.payload] else [])
                  && (frame.ttl >= 2 ==>
                        && frame.msgId in after.store
                        && after.store[frame.msgId] == frame.(ttl := frame.ttl - 1))
                  && (frame.ttl < 2 ==> after.store == n.store && after.storeOrder == n.storeOrder))
  {
    if frame.msgId !in n.seen {
      MarkSeenKeeps(n, frame.msgId);
      var marked := MarkSeen(n, frame.msgId);
      var delivered := if frame.recipient == n.me then marked.(inbox := marked.inbox + [frame.payload]) else marked;
      if frame.ttl >= 2 {
        KeepsExactly(delivered, frame.(ttl := frame.ttl - 1));
      }
    }
  }

  lemma {:induction false} OffersFollow(order: seq<nat>, store: map<nat, Frame>)
    requires forall i :: 0 <= i < |order| ==> order[i] in store
    ensures |Offers(order, store)| == |order|
    ensures forall i :: 0 <= i < |order| ==> Offers(order, store)[i] == store[order[i]]
    decreases |order|
  {
    if order != [] {
      OffersFollow(order[..|order| - 1], store);
    }
  }

  // ------------------------------------------------------------------ the carried window

  /** The id that an input makes the node carry anew, if any. */
  function Carries(n: Node, x: Input): seq<nat> {
    match x
    case Originated(id, _, _) => if id in n.store then [] else [id]
    case Received(frame) =>
      if frame.msgId in n.seen || frame.msgId in n.store || frame.ttl < 2 then [] else [frame.msgId]
    case Drained => []
  }

  /** All ids the inputs make the node carry anew, oldest first. */
  function AllCarried(n: Node, xs: seq<Input>): seq<nat>
    decreases |xs|
  {
    if xs == [] then []
    else
      var past := xs[..|xs| - 1];
      AllCarried(n, past) + Carries(After(n, past), xs[|xs| - 1])
  }

  function After(n: Node, xs: seq<Input>): Node
    decreases |xs|
  {
    if xs == [] then n else Feed(Tracked(After(n, xs[..|xs| - 1]), []), xs[|xs| - 1]).node
  }

  lemma {:induction false} KeepMovesWindow(n: Node, frame: Frame, carried: seq<nat>)
    requires NodeOk(n) && n.storeOrder == LastOf(carried, STORE_CAP)
    ensures NodeOk(StoreFrame(n, frame))
    ensures StoreFrame(n, frame).storeOrder ==
            LastOf(carried + (if frame.msgId in n.store then [] else [frame.msgId]), STORE_CAP)
  {
    StoreFrameKeeps(n, frame);
    KeepsExactly(n, frame);
    LastOfPush(carried, frame.msgId, STORE_CAP);
    assert carried + [] == carried;
    if |n.storeOrder| == STORE_CAP {
      assert (n.storeOrder + [frame.msgId])[1..] == n.storeOrder[1..] + [frame.msgId];
    }
  }

  lemma {:induction false} InputMovesWindow(n: Node, x: Input, carried: seq<nat>)
    requires NodeOk(n) && n.storeOrder == LastOf(carried, STORE_CAP)
    ensures var after := Feed(Tracked(n, []), x).node;
            NodeOk(after) && after.storeOrder == LastOf(carried + Carries(n, x), STORE_CAP)
  {
    hide LastOf, StoreFrame, MarkSeen, NodeOk;
    assert carried + [] == carried;
    match x
    case Originated(id, recipient, payload) =>
      MarkSeenKeeps(n, id);
      KeepMovesWindow(MarkSeen(n, id), Frame(id, recipient, n.ttl, payload), carried);
    case Received(frame) =>
      HandleKeeps(n, frame);
      if frame.msgId !in n.seen {
        MarkSeenKeeps(n, frame.msgId);
        var marked := MarkSeen(n, frame.msgId);
        var delivered := if frame.recipient == n.me then marked.(inbox := marked.inbox + [frame.payload]) else marked;
        DeliveredOk(marked, delivered);
        if frame.ttl >= 2 {
          KeepMovesWindow(delivered, frame.(ttl := frame.ttl - 1), carried);
        }
      }
    case Drained =>
      DeliveredOk(n, n.(inbox := []));
  }

  lemma {:induction false} DeliveredOk(n: Node, after: Node)
    requires NodeOk(n) && after == n.(inbox := after.inbox)
    ensures NodeOk(after)
  {
  }

  lemma {:induction false} InputsMoveWindow(me: nat, ttl: Ttl, xs: seq<Input>)
    ensures var n := After(NewNode(me, ttl), xs);
            NodeOk(n) && n.storeOrder == LastOf(AllCarried(NewNode(me, ttl), xs), STORE_CAP)
    decreases |xs|
  {
    if xs != [] {
      var past := xs[..|xs| - 1];
      InputsMoveWindow(me, ttl, past);
      InputMovesWindow(After(NewNode(me, ttl), past), xs[|xs| - 1], AllCarried(NewNode(me, ttl), past));
    }
  }

  /** Whatever a node is sent, it carries exactly the frames of the last `STORE_CAP` ids it came to carry
      anew, and offers them in that order. */
  lemma {:induction false} CarriesTheLatest(me: nat, ttl: Ttl, xs: seq<Input>)
    ensures var n, latest := After(NewNode(me, ttl), xs), LastOf(AllCarried(NewNode(me, ttl), xs), STORE_CAP);
            && n.store.Keys == Elements(latest) && |Outbound(n)| == |latest|
            && forall i :: 0 <= i < |latest| ==> Outbound(n)[i].msgId == latest[i]
  {
    InputsMoveWindow(me, ttl, xs);
    var n := After(NewNode(me, ttl), xs);
    assert forall i :: 0 <= i < |n.storeOrder| ==> n.storeOrder[i] in Elements(n.storeOrder);
    OffersFollow(n.storeOrder, n.store);
  }

  // ------------------------------------------------------------------ the dedup window

  datatype Input =
    | Originated(id: nat, recipient: nat, payload: Bytes)
    | Received(frame: Frame)
    | Drained

  /** A node with the list of ids it has newly marked as seen, oldest first. */
  datatype Tracked = Tracked(node: Node, marked: seq<nat>)

  function Feed(t: Tracked, x: Input): Tracked {
    match x
    case Originated(id, recipient, payload) =>
      Tracked(Originate(t.node, id, recipient, payload).0, if id in t.node.seen then t.marked else t.marked + [id])
    case Received(frame) =>
      var (n, r) := Handle(t.node, frame);
      Tracked(n, if r == Duplicate then t.marked else t.marked + [frame.msgId])
    case Drained => t.(node := t.node.(inbox := []))
  }

  function FeedAll(t: Tracked, xs: seq<Input>): Tracked
    decreases |xs|
  {
    if xs == [] then t else FeedAll(Feed(t, xs[0]), xs[1..])
  }

  function LastOf(s: seq<nat>, k: nat): seq<nat> {
    if |s| <= k then s else s[|s| - k..]
  }

  /** The seen set is exactly the last `SEEN_CAP` marks, so close marks differ. */
  ghost predicate WindowOk(t: Tracked) {
    && t.node.seenOrder == LastOf(t.marked, SEEN_CAP)
    && t.node.seen == Elements(t.node.seenOrder)
    && (forall i, j :: 0 <= i < j < |t.marked| && j - i <= SEEN_CAP ==> t.marked[i] != t.marked[j])
  }

  lemma {:induction false} LastOfPush(s: seq<nat>, x: nat, k: nat)
    requires 0 < k
    ensures var order := LastOf(s, k) + [x];
            LastOf(s + [x], k) == if |order| > k then order[1..] else order
  {
  }

  lemma {:induction false} LastOfAt(s: seq<nat>, k: nat)
    ensures |LastOf(s, k)| == if |s| <= k then |s| else k
    ensures forall i :: 0 <= i < |LastOf(s, k)| ==> LastOf(s, k)[i] == s[|s| - |LastOf(s, k)| + i]
  {
  }

  lemma {:induction false} MarkKeepsWindow(n: Node, marked: seq<nat>, id: nat)
    requires WindowOk(Tracked(n, marked)) && id !in n.seen
    ensures WindowOk(Tracked(MarkSeen(n, id), marked + [id]))
  {
    hide LastOf;
    var order := n.seenOrder + [id];
    LastOfAt(marked, SEEN_CAP);
    LastOfPush(marked, id, SEEN_CAP);
    ElementsPush(n.seenOrder, id);
    forall i | 0 <= i < |marked| && |marked| - i <= SEEN_CAP
      ensures marked[i] != id
    {
      assert marked[i] == n.seenOrder[i - (|marked| - |n.seenOrder|)];
    }
    if |order| > SEEN_CAP {
    }
  }

  /** The window is about what was seen, not what is stored or delivered. */
  lemma {:induction false} WindowElsewhere(n: Node, after: Node, marked: seq<nat>)
    requires WindowOk(Tracked(n, marked)) && after.seen == n.seen && after.seenOrder == n.seenOrder
    ensures WindowOk(Tracked(after, marked))
  {
  }

  lemma {:induction false} FeedKeepsWindow(t: Tracked, x: Input)
    requires WindowOk(t)
    ensures WindowOk(Feed(t, x))
  {
    hide WindowOk, MarkSeen;
    match x
    case Originated(id, recipient, payload) =>
      var marked := if id in t.node.seen then t.marked else t.marked + [id];
      if id !in t.node.seen {
        MarkKeepsWindow(t.node, t.marked, id);
      } else {
        MarkAgain(t.node, id);
      }
      WindowElsewhere(MarkSeen(t.node, id), Originate(t.node, id, recipient, payload).0, marked);
    case Received(frame) =>
      if frame.msgId !in t.node.seen {
        MarkKeepsWindow(t.node, t.marked, frame.msgId);
        WindowElsewhere(MarkSeen(t.node, frame.msgId), Handle(t.node, frame).0, t.marked + [frame.msgId]);
      }
    case Drained =>
      WindowElsewhere(t.node, t.node.(inbox := []), t.marked);
  }

  lemma {:induction false} MarkAgain(n: Node, id: nat)
    requires id in n.seen
    ensures MarkSeen(n, id) == n
  {
  }

  lemma {:induction false} FeedAllKeepsWindow(t: Tracked, xs: seq<Input>)
    requires WindowOk(t)
    ensures WindowOk(FeedAll(t, xs))
    decreases |xs|
  {
    if xs != [] {
      FeedKeepsWindow(t, xs[0]);
      FeedAllKeepsWindow(Feed(t, xs[0]), xs[1..]);
    }
  }

  /** An id marked twice, whatever the node is sent, was forgotten in between, and only because
      at least `SEEN_CAP` other ids, all different, were marked meanwhile. */
  lemma {:induction false} MarkedAgainOnlyAfterWindow(me: nat, ttl: Ttl, xs: seq<Input>, i: nat, j: nat)
    requires var marked := FeedAll(Tracked(NewNode(me, ttl), []), xs).marked;
             i < j < |marked| && marked[i] == marked[j]
    ensures var marked := FeedAll(Tracked(NewNode(me, ttl), []), xs).marked;
            |set k | i < k < j && marked[k] != marked[i] :: marked[k]| >= SEEN_CAP
  {
    FeedAllKeepsWindow(Tracked(NewNode(me, ttl), []), xs);
    var marked := FeedAll(Tracked(NewNode(me, ttl), []), xs).marked;
    assert j - i > SEEN_CAP;
    var window := marked[i + 1..i + 1 + SEEN_CAP];
    assert NoDups(window);
    DistinctCount(window);
    var others := set k | i < k < j && marked[k] != marked[i] :: marked[k];
    forall k | 0 <= k < |window|
      ensures window[k] in others
    {
      assert window[k] == marked[i + 1 + k];
    }
    SubsetSize(Elements(window), others);
  }
}
