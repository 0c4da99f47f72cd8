/**
 Reachability: while no more ids are about than a store can hold, and a frame starts with at
 least as much budget as there are nodes, having seen it means being reachable from its origin
 through the contacts, and being its recipient means having its payload once.
 */
module MeshDelivery {
  import opened Results
  import opened Mesh
  import opened MeshNetwork

  // ------------------------------------------------------------------ one id at one site

  /** What a site knows of one id: whether it saw it, the copy it carries, its letters. */
  datatype View = View(seen: bool, copy: Option<Frame>, letters: seq<Bytes>)

  function LettersOf(mail: seq<(nat, Bytes)>, x: nat): seq<Bytes>
    decreases |mail|
  {
    if mail == [] then []
    else
      var rest := LettersOf(mail[..|mail| - 1], x);
      if mail[|mail| - 1].0 == x then rest + [mail[|mail| - 1].1] else rest
  }

  function ViewOf(s: Site, x: nat): View {
    View(x in s.node.seen, if x in s.node.store then Some(s.node.store[x]) else None, LettersOf(s.mail, x))
  }

  /** The view after the site is offered `frame`, if it is offered one. */
  function Offered(v: View, me: nat, frame: Option<Frame>): View {
    if v.seen || frame.None? then v
    else
      View(true, if Onward(frame.value).Some? then Onward(frame.value) else v.copy,
           if frame.value.recipient == me then v.letters + [frame.value.payload] else v.letters)
  }

  /** All ids about are in `ids`, few enough that no memory ever evicts. */
  ghost predicate Roomy(n: Node, ids: set<nat>) {
    NodeOk(n) && n.seen <= ids && n.store.Keys <= ids && |ids| <= STORE_CAP
  }

  lemma {:induction false} NothingEvicted(n: Node, id: nat, ids: set<nat>)
    requires Roomy(n, ids) && id in ids
    ensures MarkSeen(n, id).seen == n.seen + {id}
    ensures forall frame: Frame :: frame.msgId == id ==> StoreFrame(n, frame).store == n.store[id := frame]
  {
    ElementsPush(n.seenOrder, id);
    ElementsPush(n.storeOrder, id);
    if id !in n.seen {
      DistinctWithin(n.seenOrder + [id], ids);
    }
    if id !in n.store {
      DistinctWithin(n.storeOrder + [id], ids);
    }
  }

  lemma {:induction false} AcceptView(s: Site, f: Frame, x: nat, ids: set<nat>)
    requires Roomy(s.node, ids) && f.msgId in ids
    ensures Roomy(Accept(s, f).node, ids) && Accept(s, f).node.me == s.node.me
    ensures ViewOf(Accept(s, f), x) == Offered(ViewOf(s, x), s.node.me, if f.msgId == x then Some(f) else None)
  {
    HandleKeeps(s.node, f);
    if f.msgId !in s.node.seen {
      var marked := MarkSeen(s.node, f.msgId);
      MarkSeenKeeps(s.node, f.msgId);
      NothingEvicted(s.node, f.msgId, ids);
      var delivered := if f.recipient == s.node.me then marked.(inbox := marked.inbox + [f.payload]) else marked;
      if Onward(f).Some? {
        StoreFrameKeeps(delivered, Onward(f).value);
        NothingEvicted(delivered, f.msgId, ids);
      }
      assert (s.mail + [(f.msgId, f.payload)])[..|s.mail|] == s.mail;
    }
  }

  function Find(fs: seq<Frame>, x: nat): Option<Frame>
    decreases |fs|
  {
    if fs == [] then None else if fs[0].msgId == x then Some(fs[0]) else Find(fs[1..], x)
  }

  ghost predicate DistinctIds(fs: seq<Frame>) {
    forall i, j :: 0 <= i < j < |fs| ==> fs[i].msgId != fs[j].msgId
  }

  lemma {:induction false} FindIs(fs: seq<Frame>, x: nat)
    ensures Find(fs, x).Some? ==> Find(fs, x).value in fs && Find(fs, x).value.msgId == x
    ensures Find(fs, x).None? ==> forall f :: f in fs ==> f.msgId != x
    decreases |fs|
  {
    if fs != [] {
      FindIs(fs[1..], x);
    }
  }

  lemma {:induction false} AcceptAllView(s: Site, fs: seq<Frame>, x: nat, ids: set<nat>)
    requires Roomy(s.node, ids) && DistinctIds(fs) && forall f :: f in fs ==> f.msgId in ids
    ensures Roomy(AcceptAll(s, fs).node, ids) && AcceptAll(s, fs).node.me == s.node.me
    ensures ViewOf(AcceptAll(s, fs), x) == Offered(ViewOf(s, x), s.node.me, Find(fs, x))
    decreases |fs|
  {
    if fs != [] {
      AcceptView(s, fs[0], x, ids);
      AcceptAllView(Accept(s, fs[0]), fs[1..], x, ids);
      if fs[0].msgId == x {
        FindIs(fs[1..], x);
        assert forall i :: 1 <= i < |fs| ==> fs[i].msgId != x;
      }
    }
  }

  /** Meeting a node that carries a copy of `x` means being offered that copy, otherwise nothing. */
  lemma {:induction false} ContactView(a: Node, b: Site, x: nat, ids: set<nat>)
    requires Roomy(a, ids) && Roomy(b.node, ids)
    ensures var after := AcceptAll(b, Outbound(a));
            && Roomy(after.node, ids) && after.node.me == b.node.me
            && ViewOf(after, x) == Offered(ViewOf(b, x), b.node.me, if x in a.store then Some(a.store[x]) else None)
  {
    OutboundIsStore(a);
    AcceptAllView(b, Outbound(a), x, ids);
    FindIs(Outbound(a), x);
  }

  lemma {:induction false} SendView(s: Site, e: Event, x: nat, ids: set<nat>)
    requires Roomy(s.node, ids) && e.Send? && e.id in ids
    ensures var after := s.(node := Originate(s.node, e.id, e.recipient, e.payload).0);
            && Roomy(after.node, ids) && after.node.me == s.node.me && after.node.ttl == s.node.ttl
            && ViewOf(after, x) ==
               (if e.id == x then View(true, Some(Frame(x, e.recipient, s.node.ttl, e.payload)), LettersOf(s.mail, x))
                else ViewOf(s, x))
  {
    OriginateKeeps(s.node, e.id, e.recipient, e.payload);
    MarkSeenKeeps(s.node, e.id);
    NothingEvicted(s.node, e.id, ids);
    NothingEvicted(MarkSeen(s.node, e.id), e.id, ids);
  }

  // ------------------------------------------------------------------ the run

  ghost predicate AllRoomy(net: seq<Site>, ids: set<nat>) {
    forall i: nat :: i < |net| ==> Roomy(net[i].node, ids)
  }

  function SeenBy(net: seq<Site>, x: nat): set<nat> {
    set i | 0 <= i < |net| && x in net[i].node.seen
  }

  /** The view of letter `l` that reachability alone dictates for site `i`. */
  ghost predicate AsReached(net: seq<Site>, i: nat, trace: seq<Event>, l: Letter)
    requires i < |net|
  {
    var v := ViewOf(net[i], l.id);
    && (v.seen <==> Reached(trace, l.origin, i))
    && v.letters == (if v.seen && i != l.origin && net[i].node.me == l.recipient then [l.payload] else [])
    && (v.copy.Some? <==> v.seen)
    && (v.seen ==>
          var f := v.copy.value;
          && f == Frame(l.id, l.recipient, f.ttl, l.payload)
          && l.budget + 1 <= f.ttl + |SeenBy(net, l.id)|)
  }

  ghost predicate Delivering(net: seq<Site>, ids: set<nat>, trace: seq<Event>, l: Letter) {
    && AllRoomy(net, ids) && l.budget >= |net|
    && l.origin < |net| && l.id in net[l.origin].node.seen
    && forall i: nat :: i < |net| ==> AsReached(net, i, trace, l)
  }

  lemma {:induction false} BelowCount(s: set<nat>, n: nat)
    requires forall i :: i in s ==> i < n
    ensures |s| <= n
  {
    if n == 0 {
      assert s == {};
    } else {
      BelowCount(s - {n - 1}, n - 1);
      assert s <= s - {n - 1} + {n - 1};
      SubsetSize(s, s - {n - 1} + {n - 1});
    }
  }

  lemma {:induction false} SeenByGrows(net: seq<Site>, to: nat, after: Site, x: nat)
    requires to < |net| && (x in net[to].node.seen ==> x in after.node.seen)
    ensures SeenBy(net[to := after], x) == SeenBy(net, x) + (if x in after.node.seen then {to} else {})
    ensures |SeenBy(net, x)| <= |SeenBy(net[to := after], x)| <= |net|
    ensures x !in net[to].node.seen && x in after.node.seen ==>
              |SeenBy(net[to := after], x)| == |SeenBy(net, x)| + 1
  {
    BelowCount(SeenBy(net[to := after], x), |net|);
    SubsetSize(SeenBy(net, x), SeenBy(net[to := after], x));
  }

  /** Elsewhere in the network nothing but the trace and the number of witnesses has changed. */
  lemma {:induction false} OthersAsReached(net: seq<Site>, after: seq<Site>, i: nat, trace: seq<Event>, e: Event,
                                           longer: seq<Event>, l: Letter)
    requires i < |net| == |after| && AsReached(net, i, trace, l) && longer == trace + [e]
    requires e.Contact? ==> e.to != i || !Reached(trace, l.origin, e.from) || Reached(trace, l.origin, i)
    requires ViewOf(after[i], l.id) == ViewOf(net[i], l.id) && after[i].node.me == net[i].node.me
    requires |SeenBy(net, l.id)| <= |SeenBy(after, l.id)|
    ensures AsReached(after, i, longer, l)
  {
    ReachedExtend(trace, e, longer, l.origin, i);
  }

  lemma {:induction false} ContactDelivers(net: seq<Site>, ids: set<nat>, trace: seq<Event>, e: Event,
                                           longer: seq<Event>, l: Letter)
    requires Delivering(net, ids, trace, l) && longer == trace + [e]
    requires e.Contact? && e.from < |net| && e.to < |net|
    ensures Delivering(Step(net, e), ids, longer, l)
  {
    var a, b, x := net[e.from].node, net[e.to], l.id;
    var met := AcceptAll(b, Outbound(a));
    var after := net[e.to := met];
    ContactView(a, b, x, ids);
    SeenByGrows(net, e.to, met, x);
    assert AsReached(net, e.from, trace, l) && AsReached(net, e.to, trace, l);
    forall i: nat | i < |net|
      ensures AsReached(after, i, longer, l)
    {
      assert AsReached(net, i, trace, l);
      if i == e.to && x in a.store && x !in b.node.seen {
        ReachedExtend(trace, e, longer, l.origin, i);
      } else {
        OthersAsReached(net, after, i, trace, e, longer, l);
      }
    }
  }

  lemma {:induction false} OtherStepDelivers(net: seq<Site>, ids: set<nat>, trace: seq<Event>, e: Event,
                                             longer: seq<Event>, l: Letter)
    requires Delivering(net, ids, trace, l) && longer == trace + [e]
    requires !e.Contact? && (e.Send? ==> e.id in ids && e.id != l.id)
    ensures Delivering(Step(net, e), ids, longer, l)
  {
    var after := Step(net, e);
    if e.Send? && e.at < |net| {
      SendView(net[e.at], e, l.id, ids);
    }
    assert SeenBy(after, l.id) == SeenBy(net, l.id);
    forall i: nat | i < |net|
      ensures AsReached(after, i, longer, l) && Roomy(after[i].node, ids)
    {
      assert AsReached(net, i, trace, l);
      assert Roomy(net[i].node, ids);
      OthersAsReached(net, after, i, trace, e, longer, l);
    }
  }

  /** Events between nodes of the network, sending ids from `ids` other than `x`. */
  ghost predicate Plausible(trace: seq<Event>, size: nat, ids: set<nat>, x: nat) {
    forall e :: e in trace ==> PlausibleEvent(e, size, ids, x)
  }

  predicate PlausibleEvent(e: Event, size: nat, ids: set<nat>, x: nat) {
    match e
    case Send(_, id, _, _) => id in ids && id != x
    case Contact(from, to) => from < size && to < size
    case Drain(_) => true
  }

  lemma {:induction false} RunDelivers(net: seq<Site>, ids: set<nat>, trace: seq<Event>, l: Letter)
    requires Delivering(net, ids, [], l) && Plausible(trace, |net|, ids, l.id)
    ensures Delivering(Run(net, trace), ids, trace, l)
    decreases |trace|
  {
    if trace != [] {
      var n := |trace| - 1;
      var past, mid, e := trace[..n], Run(net, trace[..n]), trace[n];
      RunDelivers(net, ids, past, l);
      assert trace == past + [e] && e in trace;
      if e.Contact? {
        ContactDelivers(mid, ids, past, e, trace, l);
      } else {
        OtherStepDelivers(mid, ids, past, e, trace, l);
      }
    }
  }

  /** Before letter `x` is sent, nobody has seen or stored it or has mail from it. */
  ghost predicate Quiet(net: seq<Site>, ids: set<nat>, x: nat) {
    AllRoomy(net, ids) && forall i: nat :: i < |net| ==> ViewOf(net[i], x) == View(false, None, [])
  }

  lemma {:induction false} StepKeepsQuiet(net: seq<Site>, e: Event, ids: set<nat>, x: nat)
    requires Quiet(net, ids, x) && PlausibleEvent(e, |net|, ids, x)
    ensures Quiet(Step(net, e), ids, x)
  {
    match e
    case Send(at, _, _, _) =>
      if at < |net| {
        assert Roomy(net[at].node, ids);
        SendView(net[at], e, x, ids);
      }
    case Contact(from, to) =>
      assert Roomy(net[from].node, ids) && Roomy(net[to].node, ids);
      assert ViewOf(net[from], x) == View(false, None, []) == ViewOf(net[to], x);
      ContactView(net[from].node, net[to], x, ids);
    case Drain(at) =>
      assert at < |net| ==> Roomy(net[at].node, ids) && ViewOf(net[at], x) == View(false, None, []);
  }

  lemma {:induction false} RunKeepsQuiet(net: seq<Site>, trace: seq<Event>, ids: set<nat>, x: nat)
    requires Quiet(net, ids, x) && Plausible(trace, |net|, ids, x)
    ensures Quiet(Run(net, trace), ids, x)
    decreases |trace|
  {
    if trace != [] {
      var n := |trace| - 1;
      RunKeepsQuiet(net, trace[..n], ids, x);
      assert trace[n] in trace;
      StepKeepsQuiet(Run(net, trace[..n]), trace[n], ids, x);
    }
  }

  lemma {:induction false} SendDelivers(net: seq<Site>, e: Event, ids: set<nat>)
    requires e.Send? && e.at < |net| && e.id in ids && Quiet(net, ids, e.id)
    requires net[e.at].node.ttl >= |net|
    ensures Delivering(Step(net, e), ids, [], Letter(e.id, e.at, net[e.at].node.ttl, e.recipient, e.payload))
  {
    var l := Letter(e.id, e.at, net[e.at].node.ttl, e.recipient, e.payload);
    var after := Step(net, e);
    assert Roomy(net[e.at].node, ids);
    SendView(net[e.at], e, e.id, ids);
    SeenByGrows(net, e.at, after[e.at], e.id);
    assert Reaches([], e.at, e.at, 0);
    forall i: nat | i < |net|
      ensures AsReached(after, i, [], l) && Roomy(after[i].node, ids)
    {
      assert Roomy(net[i].node, ids) && ViewOf(net[i], e.id) == View(false, None, []);
    }
  }

  /** In a new network, after any events, letter `send` and any further events: the nodes that
      have seen it are exactly those reachable from its origin through the later contacts, and
      each reachable recipient other than the origin has its payload, exactly once. */
  lemma {:induction false} SeenExactlyWhereReachable(net: seq<Site>, ids: set<nat>, before: seq<Event>, send: Event,
                                                     since: seq<Event>, i: nat)
    requires New(net) && |ids| <= STORE_CAP
    requires send.Send? && send.at < |net| && send.id in ids && net[send.at].node.ttl >= |net|
    requires Plausible(before, |net|, ids, send.id) && Plausible(since, |net|, ids, send.id)
    requires i < |net|
    ensures var s := Run(net, before + [send] + since)[i];
            var reachable := exists hops :: Path(since, hops, send.at, i);
            && (send.id in s.node.seen <==> reachable)
            && LettersOf(s.mail, send.id) ==
               (if reachable && i != send.at && s.node.me == send.recipient then [send.payload] else [])
  {
    assert Quiet(net, ids, send.id);
    RunKeepsQuiet(net, before, ids, send.id);
    RunKeepsIdentity(net, before);
    RunAppend(net, before, [send]);
    assert [send][..0] == [];
    assert Run(Run(net, before), [send]) == Step(Run(net, before), send);
    SendDelivers(Run(net, before), send, ids);
    var l := Letter(send.id, send.at, net[send.at].node.ttl, send.recipient, send.payload);
    RunDelivers(Run(net, before + [send]), ids, since, l);
    RunAppend(net, before + [send], since);
    assert AsReached(Run(net, before + [send] + since), i, since, l);
    if Reached(since, send.at, i) {
      var h: nat :| Reaches(since, send.at, i, h);
      var hops := ReachesHasPath(since, send.at, i, h);
    }
    forall hops | Path(since, hops, send.at, i)
      ensures Reached(since, send.at, i)
    {
      PathReaches(since, hops, send.at, i);
    }
  }

  // ------------------------------------------------------------------ letters and the inbox

  function Payloads(mail: seq<(nat, Bytes)>): seq<Bytes> {
    seq(|mail|, i requires 0 <= i < |mail| => mail[i].1)
  }

  lemma {:induction false} AcceptAllMail(s: Site, fs: seq<Frame>)
    requires Payloads(s.mail) == s.taken + s.node.inbox
    ensures Payloads(AcceptAll(s, fs).mail) == AcceptAll(s, fs).taken + AcceptAll(s, fs).node.inbox
    decreases |fs|
  {
    if fs != [] {
      var next := Accept(s, fs[0]);
      if fs[0].msgId !in s.node.seen && fs[0].recipient == s.node.me {
        assert next.node.inbox == s.node.inbox + [fs[0].payload];
        assert Payloads(next.mail) == Payloads(s.mail) + [fs[0].payload];
      }
      AcceptAllMail(next, fs[1..]);
    }
  }

  /** The letters recorded at a site are what its inbox has received: drained and undrained
      payloads, in order, are the letters' payloads. */
  lemma {:induction false} LettersAreInbox(net: seq<Site>, trace: seq<Event>)
    requires New(net)
    ensures forall i: nat :: i < |net| ==>
              var s := Run(net, trace)[i]; Payloads(s.mail) == s.taken + s.node.inbox
    decreases |trace|
  {
    if trace != [] {
      var n := |trace| - 1;
      LettersAreInbox(net, trace[..n]);
      var mid, e := Run(net, trace[..n]), trace[n];
      if e.Contact? && e.from < |net| && e.to < |net| {
        AcceptAllMail(mid[e.to], Outbound(mid[e.from].node));
      } else if e.Drain? && e.at < |net| {
        assert Step(mid, e)[e.at].taken == mid[e.at].taken + mid[e.at].node.inbox;
      }
    }
  }
}
