/**
 A mesh of any number of nodes meeting in any order: at each contact one node offers another
 everything it carries. Where a frame can be, how far it has travelled and who has its payload
 are read off the contacts alone.
 */
module MeshNetwork {
  import opened Results
  import opened Mesh

  /** A node with the letters (id and payload) ever put in its inbox, and those drained. */
  datatype Site = Site(node: Node, mail: seq<(nat, Bytes)>, taken: seq<Bytes>)

  datatype Event =
    | Send(at: nat, id: nat, recipient: nat, payload: Bytes)
    | Contact(from: nat, to: nat)
    | Drain(at: nat)

  function Accept(s: Site, f: Frame): Site {
    var (node, r) := Handle(s.node, f);
    Site(node, if r.Accepted? && r.forMe then s.mail + [(f.msgId, f.payload)] else s.mail, s.taken)
  }

  function AcceptAll(s: Site, fs: seq<Frame>): Site
    decreases |fs|
  {
    if fs == [] then s else AcceptAll(Accept(s, fs[0]), fs[1..])
  }

  function Step(net: seq<Site>, e: Event): (after: seq<Site>)
    ensures |after| == |net|
  {
    match e
    case Send(at, id, recipient, payload) =>
      if at < |net| then net[at := net[at].(node := Originate(net[at].node, id, recipient, payload).0)] else net
    case Contact(from, to) =>
      if from < |net| && to < |net| then net[to := AcceptAll(net[to], Outbound(net[from].node))] else net
    case Drain(at) =>
      if at < |net| then
        net[at := net[at].(node := net[at].node.(inbox := []), taken := net[at].taken + net[at].node.inbox)]
      else net
  }

  function Run(net: seq<Site>, trace: seq<Event>): (after: seq<Site>)
    ensures |after| == |net|
    decreases |trace|
  {
    if trace == [] then net else Step(Run(net, trace[..|trace| - 1]), trace[|trace| - 1])
  }

  lemma {:induction false} RunAppend(net: seq<Site>, t: seq<Event>, u: seq<Event>)
    ensures Run(net, t + u) == Run(Run(net, t), u)
    decreases |u|
  {
    if u == [] {
      assert t + u == t;
    } else {
      var n := |u| - 1;
      assert (t + u)[..|t + u| - 1] == t + u[..n];
      RunAppend(net, t, u[..n]);
    }
  }

  /** There are `h` contacts, in time order and each starting where the last one ended, that
      lead from `o` to `n`. */
  ghost predicate Reaches(trace: seq<Event>, o: nat, n: nat, h: nat)
    decreases |trace|
  {
    if trace == [] then n == o && h == 0
    else
      var past, e := trace[..|trace| - 1], trace[|trace| - 1];
      || Reaches(past, o, n, h)
      || (e.Contact? && e.to == n && 0 < h && Reaches(past, o, e.from, h - 1))
  }

  /** The same by naming the contacts: increasing positions of consecutive contacts. */
  ghost predicate Path(trace: seq<Event>, hops: seq<nat>, o: nat, n: nat) {
    && (forall i :: 0 <= i < |hops| ==> hops[i] < |trace| && trace[hops[i]].Contact?)
    && (forall i :: 0 < i < |hops| ==> hops[i - 1] < hops[i])
    && (forall i :: 0 < i < |hops| ==> trace[hops[i - 1]].to == trace[hops[i]].from)
    && (if hops == [] then n == o else trace[hops[0]].from == o && trace[hops[|hops| - 1]].to == n)
  }

  lemma {:induction false} ReachesHasPath(trace: seq<Event>, o: nat, n: nat, h: nat) returns (hops: seq<nat>)
    requires Reaches(trace, o, n, h)
    ensures |hops| == h && Path(trace, hops, o, n)
    decreases |trace|
  {
    if trace == [] {
      hops := [];
    } else {
      var last := |trace| - 1;
      if Reaches(trace[..last], o, n, h) {
        hops := ReachesHasPath(trace[..last], o, n, h);
      } else {
        hops := ReachesHasPath(trace[..last], o, trace[last].from, h - 1);
        hops := hops + [last];
      }
    }
  }

  lemma {:induction false} Increasing(hops: seq<nat>, i: nat, j: nat)
    requires forall k :: 0 < k < |hops| ==> hops[k - 1] < hops[k]
    requires i < j < |hops|
    ensures hops[i] < hops[j]
    decreases j
  {
    if i < j - 1 {
      Increasing(hops, i, j - 1);
    }
  }

  lemma {:induction false} PathReaches(trace: seq<Event>, hops: seq<nat>, o: nat, n: nat)
    requires Path(trace, hops, o, n)
    ensures Reaches(trace, o, n, |hops|)
    decreases |trace|
  {
    if trace != [] {
      var past, last := trace[..|trace| - 1], |trace| - 1;
      if hops != [] && hops[|hops| - 1] == last {
        var shorter := hops[..|hops| - 1];
        forall i | 0 <= i < |shorter|
          ensures shorter[i] < last
        {
          Increasing(hops, i, |hops| - 1);
        }
        PathReaches(past, shorter, o, trace[last].from);
      } else {
        forall i | 0 <= i < |hops|
          ensures hops[i] < last
        {
          if i < |hops| - 1 {
            Increasing(hops, i, |hops| - 1);
          }
        }
        PathReaches(past, hops, o, n);
      }
    }
  }

  ghost predicate Reached(trace: seq<Event>, o: nat, n: nat) {
    exists h: nat :: Reaches(trace, o, n, h)
  }

  lemma {:induction false} ReachesExtend(trace: seq<Event>, e: Event, longer: seq<Event>, o: nat, n: nat, h: nat)
    requires longer == trace + [e]
    ensures Reaches(longer, o, n, h) <==>
              Reaches(trace, o, n, h) || (e.Contact? && e.to == n && 0 < h && Reaches(trace, o, e.from, h - 1))
  {
    assert longer[..|longer| - 1] == trace;
  }

  lemma {:induction false} ReachedExtend(trace: seq<Event>, e: Event, longer: seq<Event>, o: nat, n: nat)
    requires longer == trace + [e]
    ensures Reached(longer, o, n) <==> Reached(trace, o, n) || (e.Contact? && e.to == n && Reached(trace, o, e.from))
  {
    if Reached(trace, o, n) {
      var h: nat :| Reaches(trace, o, n, h);
      ReachesExtend(trace, e, longer, o, n, h);
    }
    if e.Contact? && e.to == n && Reached(trace, o, e.from) {
      var h: nat :| Reaches(trace, o, e.from, h);
      ReachesExtend(trace, e, longer, o, n, h + 1);
    }
    if Reached(longer, o, n) {
      var h: nat :| Reaches(longer, o, n, h);
      ReachesExtend(trace, e, longer, o, n, h);
    }
  }

  // ------------------------------------------------------------------ one id anywhere, caps and all

  /** What handling frames can do to id `x`, evictions included. */
  ghost predicate CameFrom(before: Node, after: Node, fs: seq<Frame>, x: nat) {
    && (x in after.seen ==> x in before.seen || exists f :: f in fs && f.msgId == x)
    && (x in after.store ==>
          || (x in before.store && after.store[x] == before.store[x])
          || exists f :: f in fs && f.msgId == x && Onward(f) == Some(after.store[x]))
  }

  lemma {:induction false} AcceptCameFrom(s: Site, f: Frame, x: nat)
    requires NodeOk(s.node)
    ensures NodeOk(Accept(s, f).node) && CameFrom(s.node, Accept(s, f).node, [f], x)
  {
    HandleKeeps(s.node, f);
    if f.msgId !in s.node.seen {
      MarkSeenKeeps(s.node, f.msgId);
      var marked := MarkSeen(s.node, f.msgId);
      var delivered := if f.recipient == s.node.me then marked.(inbox := marked.inbox + [f.payload]) else marked;
      if Onward(f).Some? {
        StoreFrameKeeps(delivered, Onward(f).value);
      }
    }
    assert f in [f];
  }

  lemma {:induction false} AcceptAllCameFrom(s: Site, fs: seq<Frame>, x: nat)
    requires NodeOk(s.node)
    ensures NodeOk(AcceptAll(s, fs).node) && CameFrom(s.node, AcceptAll(s, fs).node, fs, x)
    decreases |fs|
  {
    if fs != [] {
      AcceptCameFrom(s, fs[0], x);
      AcceptAllCameFrom(Accept(s, fs[0]), fs[1..], x);
      assert forall f :: f in fs[1..] ==> f in fs;
    }
  }

  /** Id `x` went out once, at node `o` with budget `budget`; `trace` happened since. */
  datatype Letter = Letter(id: nat, origin: nat, budget: Ttl, recipient: nat, payload: Bytes)

  function Farthest(budget: nat): nat {
    if budget == 0 then 1 else budget
  }

  /** Every copy's spent budget is the number of contacts it took to get there; whoever has
      seen the id is within `Farthest` contacts of its origin. */
  ghost predicate HopsOk(n: Node, i: nat, trace: seq<Event>, l: Letter) {
    && (l.id in n.seen ==> exists h: nat :: h <= Farthest(l.budget) && Reaches(trace, l.origin, i, h))
    && (l.id in n.store ==>
          var f := n.store[l.id];
          && f == Frame(l.id, l.recipient, f.ttl, l.payload)
          && f.ttl <= l.budget && (f.ttl > 0 || l.budget == 0)
          && Reaches(trace, l.origin, i, l.budget - f.ttl))
  }

  ghost predicate AllHopsOk(net: seq<Site>, trace: seq<Event>, l: Letter) {
    && (forall i: nat :: i < |net| ==> NodeOk(net[i].node))
    && (forall i: nat :: i < |net| ==> HopsOk(net[i].node, i, trace, l))
  }

  lemma {:induction false} HopsLater(n: Node, i: nat, trace: seq<Event>, e: Event, longer: seq<Event>, l: Letter)
    requires HopsOk(n, i, trace, l) && longer == trace + [e]
    ensures HopsOk(n, i, longer, l)
  {
    if l.id in n.seen {
      var h: nat :| h <= Farthest(l.budget) && Reaches(trace, l.origin, i, h);
      ReachesExtend(trace, e, longer, l.origin, i, h);
    }
    if l.id in n.store {
      ReachesExtend(trace, e, longer, l.origin, i, l.budget - n.store[l.id].ttl);
    }
  }

  lemma {:induction false} ContactHops(a: Node, b: Site, from: nat, to: nat, trace: seq<Event>, longer: seq<Event>,
                                       l: Letter)
    requires NodeOk(a) && NodeOk(b.node) && HopsOk(a, from, trace, l) && HopsOk(b.node, to, trace, l)
    requires longer == trace + [Contact(from, to)]
    ensures var after := AcceptAll(b, Outbound(a)).node;
            NodeOk(after) && HopsOk(after, to, longer, l)
  {
    hide HopsOk, NodeOk, CameFrom;
    AcceptAllCameFrom(b, Outbound(a), l.id);
    OutboundIsStore(a);
    HopsLater(b.node, to, trace, Contact(from, to), longer, l);
    OfferedHops(b.node, AcceptAll(b, Outbound(a)).node, a, Outbound(a), from, to, trace, longer, l);
  }

  lemma {:induction false} OutboundIsStore(n: Node)
    requires NodeOk(n)
    ensures forall f :: f in Outbound(n) <==> f.msgId in n.store && n.store[f.msgId] == f
    ensures forall i, j :: 0 <= i < j < |Outbound(n)| ==> Outbound(n)[i].msgId != Outbound(n)[j].msgId
  {
    OffersAreStore(n.storeOrder, n.store);
  }

  lemma {:induction false} OfferedHops(before: Node, after: Node, a: Node, fs: seq<Frame>, from: nat, to: nat,
                                       trace: seq<Event>, longer: seq<Event>, l: Letter)
    requires CameFrom(before, after, fs, l.id)
    requires forall f :: f in fs && f.msgId == l.id ==> l.id in a.store && f == a.store[l.id]
    requires HopsOk(before, to, longer, l) && HopsOk(a, from, trace, l)
    requires longer == trace + [Contact(from, to)]
    ensures HopsOk(after, to, longer, l)
  {
    if l.id in a.store {
      var h := l.budget - a.store[l.id].ttl;
      ReachesExtend(trace, Contact(from, to), longer, l.origin, to, h + 1);
      assert Reaches(longer, l.origin, to, h + 1) && h + 1 <= Farthest(l.budget);
    }
  }

  lemma {:induction false} SendHops(n: Node, i: nat, trace: seq<Event>, e: Event, longer: seq<Event>, l: Letter)
    requires NodeOk(n) && HopsOk(n, i, trace, l) && e.Send? && e.id != l.id && longer == trace + [e]
    ensures var after := Originate(n, e.id, e.recipient, e.payload).0;
            NodeOk(after) && HopsOk(after, i, longer, l)
  {
    HopsLater(n, i, trace, e, longer, l);
    OriginateKeeps(n, e.id, e.recipient, e.payload);
    MarkSeenKeeps(n, e.id);
    StoreFrameKeeps(MarkSeen(n, e.id), Frame(e.id, e.recipient, n.ttl, e.payload));
  }

  lemma {:induction false} StepKeepsHops(net: seq<Site>, trace: seq<Event>, e: Event, longer: seq<Event>, l: Letter)
    requires AllHopsOk(net, trace, l) && longer == trace + [e]
    requires e.Send? ==> e.id != l.id
    ensures AllHopsOk(Step(net, e), longer, l)
  {
    forall i: nat | i < |net|
      ensures NodeOk(Step(net, e)[i].node) && HopsOk(Step(net, e)[i].node, i, longer, l)
    {
      HopsLater(net[i].node, i, trace, e, longer, l);
      if e.Contact? && e.to == i && e.from < |net| {
        ContactHops(net[e.from].node, net[i], e.from, i, trace, longer, l);
      } else if e.Send? && e.at == i {
        SendHops(net[i].node, i, trace, e, longer, l);
      }
    }
  }

  lemma {:induction false} RunKeepsHops(net: seq<Site>, trace: seq<Event>, l: Letter)
    requires AllHopsOk(net, [], l)
    requires forall e :: e in trace && e.Send? ==> e.id != l.id
    ensures AllHopsOk(Run(net, trace), trace, l)
    decreases |trace|
  {
    if trace != [] {
      var n := |trace| - 1;
      RunKeepsHops(net, trace[..n], l);
      assert trace == trace[..n] + [trace[n]];
      StepKeepsHops(Run(net, trace[..n]), trace[..n], trace[n], trace, l);
    }
  }

  // ------------------------------------------------------------------ before and at the send

  ghost predicate Unused(net: seq<Site>, x: nat) {
    && (forall i: nat :: i < |net| ==> NodeOk(net[i].node))
    && (forall i: nat :: i < |net| ==> x !in net[i].node.seen && x !in net[i].node.store)
  }

  /** A network nobody has used: every node new, whatever its identity and budget. */
  ghost predicate New(net: seq<Site>) {
    forall i: nat :: i < |net| ==> net[i] == Site(NewNode(net[i].node.me, net[i].node.ttl), [], [])
  }

  lemma {:induction false} StepKeepsUnused(net: seq<Site>, e: Event, x: nat)
    requires Unused(net, x) && (e.Send? ==> e.id != x)
    ensures Unused(Step(net, e), x)
  {
    match e
    case Send(at, id, recipient, payload) =>
      if at < |net| {
        OriginateKeeps(net[at].node, id, recipient, payload);
        MarkSeenKeeps(net[at].node, id);
        StoreFrameKeeps(MarkSeen(net[at].node, id), Frame(id, recipient, net[at].node.ttl, payload));
      }
    case Contact(from, to) =>
      if from < |net| && to < |net| {
        AcceptAllCameFrom(net[to], Outbound(net[from].node), x);
        OutboundIsStore(net[from].node);
      }
    case Drain(at) =>
  }

  lemma {:induction false} RunKeepsUnused(net: seq<Site>, trace: seq<Event>, x: nat)
    requires Unused(net, x) && forall e :: e in trace && e.Send? ==> e.id != x
    ensures Unused(Run(net, trace), x)
    decreases |trace|
  {
    if trace != [] {
      var n := |trace| - 1;
      RunKeepsUnused(net, trace[..n], x);
      StepKeepsUnused(Run(net, trace[..n]), trace[n], x);
    }
  }

  lemma {:induction false} RunKeepsIdentity(net: seq<Site>, trace: seq<Event>)
    ensures forall i: nat :: i < |net| ==>
              Run(net, trace)[i].node.me == net[i].node.me && Run(net, trace)[i].node.ttl == net[i].node.ttl
    decreases |trace|
  {
    if trace != [] {
      var n := |trace| - 1;
      RunKeepsIdentity(net, trace[..n]);
      var e, mid := trace[n], Run(net, trace[..n]);
      if e.Contact? && e.from < |net| && e.to < |net| {
        AcceptAllIdentity(mid[e.to], Outbound(mid[e.from].node));
      }
    }
  }

  lemma {:induction false} AcceptAllIdentity(s: Site, fs: seq<Frame>)
    ensures AcceptAll(s, fs).node.me == s.node.me && AcceptAll(s, fs).node.ttl == s.node.ttl
    decreases |fs|
  {
    if fs != [] {
      AcceptAllIdentity(Accept(s, fs[0]), fs[1..]);
    }
  }

  lemma {:induction false} SendStartsHops(net: seq<Site>, e: Event)
    requires e.Send? && e.at < |net| && Unused(net, e.id)
    ensures AllHopsOk(Step(net, e), [], Letter(e.id, e.at, net[e.at].node.ttl, e.recipient, e.payload))
  {
    var n := net[e.at].node;
    OriginateKeeps(n, e.id, e.recipient, e.payload);
    MarkSeenKeeps(n, e.id);
    StoreFrameKeeps(MarkSeen(n, e.id), Frame(e.id, e.recipient, n.ttl, e.payload));
    assert Reaches([], e.at, e.at, 0);
  }

  /** Budget conservation over any run, with any evictions: after `send`, a carried copy's
      remaining budget plus the contacts it travelled is the budget it started with, so nobody
      farther than `Farthest` contacts away ever accepts it. */
  lemma {:induction false} BudgetPlusHopsIsConstant(net: seq<Site>, before: seq<Event>, send: Event, since: seq<Event>)
    requires New(net) && send.Send? && send.at < |net|
    requires forall e :: e in before + since && e.Send? ==> e.id != send.id
    ensures AllHopsOk(Run(net, before + [send] + since), since,
                      Letter(send.id, send.at, net[send.at].node.ttl, send.recipient, send.payload))
  {
    assert Unused(net, send.id);
    RunKeepsUnused(net, before, send.id);
    RunKeepsIdentity(net, before);
    RunAppend(net, before, [send]);
    assert [send][..0] == [];
    assert Run(Run(net, before), [send]) == Step(Run(net, before), send);
    SendStartsHops(Run(net, before), send);
    var l := Letter(send.id, send.at, net[send.at].node.ttl, send.recipient, send.payload);
    RunKeepsHops(Run(net, before + [send]), since, l);
    RunAppend(net, before + [send], since);
  }
}
