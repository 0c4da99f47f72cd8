/**
 Synchronous gossip, as the mesh's own simulator runs it: in each round every node offers what
 it carried at the start of the round across every edge. A frame spreads as a ball in the graph,
 capped by its budget, and gossip comes to rest.
 */
module MeshRounds {
  import opened Results
  import opened Mesh
  import opened MeshNetwork
  import opened MeshDelivery

  type Edge = (nat, nat)

  function Accepted(s: Site, fs: seq<Frame>): nat
    decreases |fs|
  {
    if fs == [] then 0
    else (if fs[0].msgId in s.node.seen then 0 else 1) + Accepted(Accept(s, fs[0]), fs[1..])
  }

  ghost predicate EdgesIn(edges: seq<Edge>, size: nat) {
    forall e :: e in edges ==> e.0 < size && e.1 < size
  }

  /** The sites after the edges have been served in order from the snapshot `start`, and how
      many frames were newly accepted. */
  function Serve(start: seq<Site>, edges: seq<Edge>): (r: (seq<Site>, nat))
    requires EdgesIn(edges, |start|)
    ensures |r.0| == |start|
    decreases |edges|
  {
    if edges == [] then (start, 0)
    else
      var e := edges[|edges| - 1];
      var (net, n) := Serve(start, edges[..|edges| - 1]);
      var (mid, atTo) := Offer(net, e.1, start[e.0].node);
      var (after, atFrom) := Offer(mid, e.0, start[e.1].node);
      (after, n + atTo + atFrom)
  }

  /** Site `to` is offered everything `carrier` carries. */
  function Offer(net: seq<Site>, to: nat, carrier: Node): (r: (seq<Site>, nat))
    requires to < |net|
    ensures |r.0| == |net|
  {
    var fs := Outbound(carrier);
    (net[to := AcceptAll(net[to], fs)], Accepted(net[to], fs))
  }

  function Round(net: seq<Site>, edges: seq<Edge>): (after: seq<Site>)
    requires EdgesIn(edges, |net|)
    ensures |after| == |net|
  {
    Serve(net, edges).0
  }

  function Rounds(net: seq<Site>, edges: seq<Edge>, r: nat): (after: seq<Site>)
    requires EdgesIn(edges, |net|)
    ensures |after| == |net|
  {
    if r == 0 then net else Round(Rounds(net, edges, r - 1), edges)
  }

  // ------------------------------------------------------------------ balls in the graph

  function Neighbours(edges: seq<Edge>, s: set<nat>): set<nat> {
    (set e | e in edges && e.0 in s :: e.1) + (set e | e in edges && e.1 in s :: e.0)
  }

  /** The nodes at most `k` edges away from `o`. */
  function Ball(edges: seq<Edge>, o: nat, k: nat): set<nat> {
    if k == 0 then {o} else Ball(edges, o, k - 1) + Neighbours(edges, Ball(edges, o, k - 1))
  }

  lemma {:induction false} BallGrows(edges: seq<Edge>, o: nat, j: nat, k: nat)
    requires j <= k
    ensures Ball(edges, o, j) <= Ball(edges, o, k)
    decreases k - j
  {
    if j < k {
      BallGrows(edges, o, j, k - 1);
    }
  }

  lemma {:induction false} NextBall(edges: seq<Edge>, o: nat, k: nat, e: Edge)
    requires e in edges
    ensures e.0 in Ball(edges, o, k) ==> e.1 in Ball(edges, o, k + 1)
    ensures e.1 in Ball(edges, o, k) ==> e.0 in Ball(edges, o, k + 1)
  {
  }

  /** Distance exactly `k` from `o`. */
  predicate AtDistance(edges: seq<Edge>, o: nat, k: nat, i: nat) {
    i in Ball(edges, o, k) && (k > 0 ==> i !in Ball(edges, o, k - 1))
  }

  lemma {:induction false} HasDistance(edges: seq<Edge>, o: nat, m: nat, i: nat) returns (k: nat)
    requires i in Ball(edges, o, m)
    ensures k <= m && AtDistance(edges, o, k, i)
  {
    if m > 0 && i in Ball(edges, o, m - 1) {
      k := HasDistance(edges, o, m - 1, i);
    } else {
      k := m;
    }
  }

  function Min(a: nat, b: nat): nat {
    if a <= b then a else b
  }

  // ------------------------------------------------------------------ one round, one id

  /** A neighbour of `i` carried a copy of `x` when the round started. */
  ghost predicate Touched(start: seq<Site>, edges: seq<Edge>, x: nat, i: nat)
    requires EdgesIn(edges, |start|)
  {
    exists e :: e in edges && ((e.1 == i && x in start[e.0].node.store) || (e.0 == i && x in start[e.1].node.store))
  }

  /** Every copy of `x` that `i` is offered in the round is `f`. */
  ghost predicate OnlyOffer(start: seq<Site>, edges: seq<Edge>, x: nat, i: nat, f: Frame)
    requires EdgesIn(edges, |start|)
  {
    forall e :: e in edges ==>
      && (e.1 == i && x in start[e.0].node.store ==> start[e.0].node.store[x] == f)
      && (e.0 == i && x in start[e.1].node.store ==> start[e.1].node.store[x] == f)
  }

  lemma {:induction false} OfferView(net: seq<Site>, to: nat, carrier: Node, x: nat, i: nat, ids: set<nat>)
    requires to < |net| && i < |net| && AllRoomy(net, ids) && Roomy(carrier, ids)
    ensures var after := Offer(net, to, carrier).0;
            && AllRoomy(after, ids) && after[i].node.me == net[i].node.me
            && ViewOf(after[i], x) ==
               if to == i && x in carrier.store then Offered(ViewOf(net[i], x), net[i].node.me, Some(carrier.store[x]))
               else ViewOf(net[i], x)
  {
    assert Roomy(net[to].node, ids);
    ContactView(carrier, net[to], x, ids);
  }

  /** A node that is offered `f` or nothing ends the round having seen `f` if it was touched,
      in whatever order the edges are served. */
  lemma {:induction false} ServeView(start: seq<Site>, edges: seq<Edge>, x: nat, i: nat, f: Frame, ids: set<nat>)
    requires EdgesIn(edges, |start|) && AllRoomy(start, ids) && i < |start|
    requires x !in start[i].node.seen ==> OnlyOffer(start, edges, x, i, f)
    ensures AllRoomy(Serve(start, edges).0, ids)
    ensures Serve(start, edges).0[i].node.me == start[i].node.me
    ensures ViewOf(Serve(start, edges).0[i], x) ==
            if Touched(start, edges, x, i) then Offered(ViewOf(start[i], x), start[i].node.me, Some(f))
            else ViewOf(start[i], x)
    decreases |edges|
  {
    if edges != [] {
      var n := |edges| - 1;
      var e: Edge, less := edges[n], edges[..n];
      assert edges == less + [e];
      ServeView(start, less, x, i, f, ids);
      assert Roomy(start[e.0].node, ids) && Roomy(start[e.1].node, ids);
      hide AllRoomy, Roomy;
      var net := Serve(start, less).0;
      var mid := Offer(net, e.1, start[e.0].node).0;
      OfferView(net, e.1, start[e.0].node, x, i, ids);
      OfferView(mid, e.0, start[e.1].node, x, i, ids);
      TouchedStep(start, less, e, x, i);
    }
  }

  lemma {:induction false} TouchedStep(start: seq<Site>, less: seq<Edge>, e: Edge, x: nat, i: nat)
    requires EdgesIn(less + [e], |start|)
    ensures EdgesIn(less, |start|) && e.0 < |start| && e.1 < |start|
    ensures Touched(start, less + [e], x, i) <==>
              || Touched(start, less, x, i)
              || (e.1 == i && x in start[e.0].node.store) || (e.0 == i && x in start[e.1].node.store)
  {
    assert e in less + [e];
    assert forall d :: d in less ==> d in less + [e];
  }

  // ------------------------------------------------------------------ the ball theorem

  /** The copy a node at distance `k` carries. */
  function CopyAt(l: Letter, k: nat): Option<Frame> {
    if k == 0 then Some(Frame(l.id, l.recipient, l.budget, l.payload))
    else if l.budget > k then Some(Frame(l.id, l.recipient, l.budget - k, l.payload))
    else None
  }

  ghost predicate InBall(s: Site, i: nat, edges: seq<Edge>, l: Letter, m: nat) {
    var v := ViewOf(s, l.id);
    && (v.seen <==> i in Ball(edges, l.origin, m))
    && (!v.seen ==> v == View(false, None, []))
    && (forall k: nat :: k <= m && AtDistance(edges, l.origin, k, i) ==> v.copy == CopyAt(l, k))
    && v.letters == (if v.seen && i != l.origin && s.node.me == l.recipient then [l.payload] else [])
  }

  ghost predicate Spread(net: seq<Site>, edges: seq<Edge>, ids: set<nat>, l: Letter, r: nat) {
    && AllRoomy(net, ids)
    && forall i: nat :: i < |net| ==> InBall(net[i], i, edges, l, Min(r, Farthest(l.budget)))
  }

  /** A carrier next to a node that has not seen the letter is as far out as the letter has
      come, and that is not yet as far as it may go. */
  lemma {:induction false} CarrierAtRim(net: seq<Site>, edges: seq<Edge>, ids: set<nat>, l: Letter, r: nat, a: nat,
                                        i: nat)
    requires EdgesIn(edges, |net|) && Spread(net, edges, ids, l, r) && a < |net| && i < |net|
    requires (a, i) in edges || (i, a) in edges
    requires l.id in net[a].node.store && l.id !in net[i].node.seen
    ensures r < Farthest(l.budget) && AtDistance(edges, l.origin, r, a)
    ensures Some(net[a].node.store[l.id]) == CopyAt(l, r) && i in Ball(edges, l.origin, r + 1)
  {
    var m := Min(r, Farthest(l.budget));
    assert InBall(net[a], a, edges, l, m) && InBall(net[i], i, edges, l, m);
    var k := HasDistance(edges, l.origin, m, a);
    NextBall(edges, l.origin, k, if (a, i) in edges then (a, i) else (i, a));
    if k < m {
      BallGrows(edges, l.origin, k + 1, m);
    }
  }

  /** A node just outside the ball has a carrier next to it. */
  lemma {:induction false} RimIsTouched(net: seq<Site>, edges: seq<Edge>, ids: set<nat>, l: Letter, r: nat, i: nat)
    requires EdgesIn(edges, |net|) && Spread(net, edges, ids, l, r) && i < |net| && r < Farthest(l.budget)
    requires i in Ball(edges, l.origin, r + 1) && i !in Ball(edges, l.origin, r)
    ensures Touched(net, edges, l.id, i)
  {
    var ball := Ball(edges, l.origin, r);
    var e: Edge :| e in edges && ((e.0 in ball && e.1 == i) || (e.1 in ball && e.0 == i));
    var a := if e.0 in ball && e.1 == i then e.0 else e.1;
    assert InBall(net[a], a, edges, l, r);
    if r > 0 {
      NextBall(edges, l.origin, r - 1, e);
    }
    assert AtDistance(edges, l.origin, r, a);
    assert ViewOf(net[a], l.id).copy == CopyAt(l, r);
  }

  lemma {:induction false} RoundSpreadsTo(net: seq<Site>, edges: seq<Edge>, ids: set<nat>, l: Letter, r: nat, i: nat)
    requires EdgesIn(edges, |net|) && Spread(net, edges, ids, l, r) && i < |net|
    ensures AllRoomy(Round(net, edges), ids)
    ensures InBall(Round(net, edges)[i], i, edges, l, Min(r + 1, Farthest(l.budget)))
  {
    var m, m' := Min(r, Farthest(l.budget)), Min(r + 1, Farthest(l.budget));
    var f := if CopyAt(l, r).Some? then CopyAt(l, r).value else Frame(l.id, l.recipient, 0, l.payload);
    assert InBall(net[i], i, edges, l, m);
    if l.id !in net[i].node.seen {
      forall e | e in edges
        ensures e.1 == i && l.id in net[e.0].node.store ==> net[e.0].node.store[l.id] == f
        ensures e.0 == i && l.id in net[e.1].node.store ==> net[e.1].node.store[l.id] == f
      {
        if e.1 == i && l.id in net[e.0].node.store {
          CarrierAtRim(net, edges, ids, l, r, e.0, i);
        }
        if e.0 == i && l.id in net[e.1].node.store {
          CarrierAtRim(net, edges, ids, l, r, e.1, i);
        }
      }
    }
    ServeView(net, edges, l.id, i, f, ids);
    BallGrows(edges, l.origin, m, m');
    BallGrows(edges, l.origin, 0, m);
    if l.id in net[i].node.seen {
      SeenStays(net[i], Round(net, edges)[i], i, edges, l, m, m');
    } else {
      if Touched(net, edges, l.id, i) {
        var e :| e in edges && ((e.1 == i && l.id in net[e.0].node.store) || (e.0 == i && l.id in net[e.1].node.store));
        var a := if e.1 == i && l.id in net[e.0].node.store then e.0 else e.1;
        CarrierAtRim(net, edges, ids, l, r, a, i);
      } else if i in Ball(edges, l.origin, m') {
        RimIsTouched(net, edges, ids, l, r, i);
      }
      NewlySeen(net[i], Round(net, edges)[i], i, edges, l, r, Touched(net, edges, l.id, i));
    }
  }

  lemma {:induction false} SeenStays(before: Site, after: Site, i: nat, edges: seq<Edge>, l: Letter, m: nat, m': nat)
    requires InBall(before, i, edges, l, m) && l.id in before.node.seen && m <= m' <= m + 1
    requires ViewOf(after, l.id) == ViewOf(before, l.id) && after.node.me == before.node.me
    ensures InBall(after, i, edges, l, m')
  {
    BallGrows(edges, l.origin, m, m');
    forall k: nat | k <= m' && AtDistance(edges, l.origin, k, i)
      ensures ViewOf(after, l.id).copy == CopyAt(l, k)
    {
      assert k <= m;
    }
  }

  lemma {:induction false} NewlySeen(before: Site, after: Site, i: nat, edges: seq<Edge>, l: Letter, r: nat,
                                     touched: bool)
    requires var m := Min(r, Farthest(l.budget));
             InBall(before, i, edges, l, m) && l.id !in before.node.seen && l.origin in Ball(edges, l.origin, m)
    requires touched <==> i in Ball(edges, l.origin, Min(r + 1, Farthest(l.budget)))
    requires touched ==> r < Farthest(l.budget)
    requires after.node.me == before.node.me
    requires ViewOf(after, l.id) ==
             if touched && CopyAt(l, r).Some? then Offered(ViewOf(before, l.id), before.node.me, CopyAt(l, r))
             else ViewOf(before, l.id)
    requires touched ==> CopyAt(l, r).Some?
    ensures InBall(after, i, edges, l, Min(r + 1, Farthest(l.budget)))
  {
    if touched {
      forall k: nat | k <= r + 1 && AtDistance(edges, l.origin, k, i)
        ensures k == r + 1
      {
        if k <= r {
          BallGrows(edges, l.origin, k, r);
        }
      }
    } else {
      forall k: nat | k <= Min(r + 1, Farthest(l.budget)) && AtDistance(edges, l.origin, k, i)
        ensures false
      {
        BallGrows(edges, l.origin, k, Min(r + 1, Farthest(l.budget)));
      }
    }
  }

  lemma {:induction false} RoundsSpread(net: seq<Site>, edges: seq<Edge>, ids: set<nat>, l: Letter, r: nat)
    requires EdgesIn(edges, |net|) && Spread(net, edges, ids, l, 0)
    ensures Spread(Rounds(net, edges, r), edges, ids, l, r)
  {
    hide InBall, Roomy, Round;
    if r > 0 {
      RoundsSpread(net, edges, ids, l, r - 1);
      var mid := Rounds(net, edges, r - 1);
      forall i: nat | i < |net|
        ensures AllRoomy(Round(mid, edges), ids)
        ensures InBall(Round(mid, edges)[i], i, edges, l, Min(r, Farthest(l.budget)))
      {
        RoundSpreadsTo(mid, edges, ids, l, r - 1, i);
      }
    }
  }

  /** After a send into a quiet network and `r` rounds over the same edges, the nodes that have
      seen the frame are exactly the ball of radius `r` around its origin, but never more than
      its budget (one contact for a budget of zero); recipients in it have the payload once. */
  lemma {:induction false} RoundsReachTheBall(net: seq<Site>, edges: seq<Edge>, ids: set<nat>, send: Event, r: nat,
                                              i: nat)
    requires send.Send? && send.at < |net| && send.id in ids
    requires EdgesIn(edges, |net|) && Quiet(net, ids, send.id) && i < |net|
    ensures var budget := net[send.at].node.ttl;
            var s := Rounds(Step(net, send), edges, r)[i];
            var near := i in Ball(edges, send.at, Min(r, Farthest(budget)));
            && (send.id in s.node.seen <==> near)
            && LettersOf(s.mail, send.id) ==
               (if near && i != send.at && s.node.me == send.recipient then [send.payload] else [])
  {
    var l := Letter(send.id, send.at, net[send.at].node.ttl, send.recipient, send.payload);
    var start := Step(net, send);
    assert Roomy(net[send.at].node, ids);
    SendView(net[send.at], send, send.id, ids);
    forall j: nat | j < |net|
      ensures InBall(start[j], j, edges, l, 0) && Roomy(start[j].node, ids)
    {
      assert Roomy(net[j].node, ids) && ViewOf(net[j], send.id) == View(false, None, []);
    }
    RoundsSpread(start, edges, ids, l, r);
    assert InBall(Rounds(start, edges, r)[i], i, edges, l, Min(r, Farthest(l.budget)));
  }

  // ------------------------------------------------------------------ coming to rest

  /** Every id seen or carried is one of `ids`. */
  ghost predicate Tame(n: Node, ids: set<nat>) {
    NodeOk(n) && n.seen <= ids && n.store.Keys <= ids
  }

  ghost predicate AllTame(net: seq<Site>, ids: set<nat>) {
    forall i: nat :: i < |net| ==> Tame(net[i].node, ids)
  }

  lemma {:induction false} SeenNotEvicted(n: Node, id: nat, ids: set<nat>)
    requires Tame(n, ids) && id in ids && |ids| <= SEEN_CAP
    ensures MarkSeen(n, id).seen == n.seen + {id}
  {
    ElementsPush(n.seenOrder, id);
    if id !in n.seen {
      DistinctWithin(n.seenOrder + [id], ids);
    }
  }

  /** With at most `SEEN_CAP` ids about, each acceptance adds one id to what a node has seen,
      and a node that accepts nothing does not change. */
  lemma {:induction false} AcceptedAreSeen(s: Site, fs: seq<Frame>, ids: set<nat>)
    requires Tame(s.node, ids) && |ids| <= SEEN_CAP && forall f :: f in fs ==> f.msgId in ids
    ensures var after := AcceptAll(s, fs);
            && Tame(after.node, ids)
            && |after.node.seen| == |s.node.seen| + Accepted(s, fs)
            && (Accepted(s, fs) == 0 ==> after == s)
    decreases |fs|
  {
    if fs != [] {
      var f, next := fs[0], Accept(s, fs[0]);
      HandleKeeps(s.node, f);
      if f.msgId !in s.node.seen {
        SeenNotEvicted(s.node, f.msgId, ids);
        MarkSeenKeeps(s.node, f.msgId);
        var marked := MarkSeen(s.node, f.msgId);
        var delivered := if f.recipient == s.node.me then marked.(inbox := marked.inbox + [f.payload]) else marked;
        if Onward(f).Some? {
          StoreFrameKeeps(delivered, Onward(f).value);
        }
        assert next.node.seen == s.node.seen + {f.msgId};
      }
      AcceptedAreSeen(next, fs[1..], ids);
    }
  }

  function TotalSeen(net: seq<Site>): nat
    decreases |net|
  {
    if net == [] then 0 else TotalSeen(net[..|net| - 1]) + |net[|net| - 1].node.seen|
  }

  lemma {:induction false} TotalAfterUpdate(net: seq<Site>, i: nat, s: Site)
    requires i < |net|
    ensures TotalSeen(net[i := s]) == TotalSeen(net) - |net[i].node.seen| + |s.node.seen|
    decreases |net|
  {
    var n := |net| - 1;
    if i == n {
      assert net[i := s][..n] == net[..n];
    } else {
      assert net[i := s][..n] == net[..n][i := s];
      TotalAfterUpdate(net[..n], i, s);
    }
  }

  lemma {:induction false} TotalAtMost(net: seq<Site>, ids: set<nat>)
    requires AllTame(net, ids)
    ensures TotalSeen(net) <= |net| * |ids|
    decreases |net|
  {
    if net != [] {
      var n := |net| - 1;
      assert AllTame(net[..n], ids) by {
        assert forall i: nat :: i < n ==> Tame(net[i].node, ids);
      }
      TotalAtMost(net[..n], ids);
      assert Tame(net[n].node, ids);
      SubsetSize(net[n].node.seen, ids);
      assert |net| * |ids| == n * |ids| + |ids|;
    }
  }

  lemma {:induction false} OfferTotals(net: seq<Site>, to: nat, carrier: Node, ids: set<nat>)
    requires to < |net| && AllTame(net, ids) && Tame(carrier, ids) && |ids| <= SEEN_CAP
    ensures var (after, n) := Offer(net, to, carrier);
            && AllTame(after, ids) && TotalSeen(after) == TotalSeen(net) + n && (n == 0 ==> after == net)
  {
    assert Tame(net[to].node, ids);
    OutboundIsStore(carrier);
    AcceptedAreSeen(net[to], Outbound(carrier), ids);
    TotalAfterUpdate(net, to, AcceptAll(net[to], Outbound(carrier)));
  }

  /** A round's acceptances are exactly the growth in what the nodes have seen; a round without
      any leaves the whole network as it was. */
  lemma {:induction false} ServeTotals(start: seq<Site>, edges: seq<Edge>, ids: set<nat>)
    requires EdgesIn(edges, |start|) && AllTame(start, ids) && |ids| <= SEEN_CAP
    ensures var (after, n) := Serve(start, edges);
            && AllTame(after, ids) && TotalSeen(after) == TotalSeen(start) + n && (n == 0 ==> after == start)
    decreases |edges|
  {
    if edges != [] {
      var e: Edge, less := edges[|edges| - 1], edges[..|edges| - 1];
      ServeTotals(start, less, ids);
      var (net, n) := Serve(start, less);
      assert Tame(start[e.0].node, ids) && Tame(start[e.1].node, ids);
      OfferTotals(net, e.1, start[e.0].node, ids);
      OfferTotals(Offer(net, e.1, start[e.0].node).0, e.0, start[e.1].node, ids);
    }
  }

  /** Acceptances in the first `r` rounds. */
  function AcceptedIn(net: seq<Site>, edges: seq<Edge>, r: nat): nat
    requires EdgesIn(edges, |net|)
  {
    if r == 0 then 0 else AcceptedIn(net, edges, r - 1) + Serve(Rounds(net, edges, r - 1), edges).1
  }

  lemma {:induction false} RoundsTotals(net: seq<Site>, edges: seq<Edge>, ids: set<nat>, r: nat)
    requires EdgesIn(edges, |net|) && AllTame(net, ids) && |ids| <= SEEN_CAP
    ensures AllTame(Rounds(net, edges, r), ids)
    ensures TotalSeen(Rounds(net, edges, r)) == TotalSeen(net) + AcceptedIn(net, edges, r)
  {
    hide AllTame, TotalSeen, Serve;
    if r > 0 {
      RoundsTotals(net, edges, ids, r - 1);
      ServeTotals(Rounds(net, edges, r - 1), edges, ids);
    }
  }

  lemma {:induction false} AcceptedAtMost(net: seq<Site>, edges: seq<Edge>, ids: set<nat>, r: nat)
    requires EdgesIn(edges, |net|) && AllTame(net, ids) && |ids| <= SEEN_CAP
    ensures AcceptedIn(net, edges, r) <= |net| * |ids|
  {
    hide AllTame, Rounds, AcceptedIn;
    RoundsTotals(net, edges, ids, r);
    TotalAtMost(Rounds(net, edges, r), ids);
  }

  /** With at most `SEEN_CAP` ids about, gossip over fixed edges comes to rest: some round among
      the first nodes-times-ids-plus-one accepts nothing, and from then on nothing changes. */
  lemma {:induction false} GossipComesToRest(net: seq<Site>, edges: seq<Edge>, ids: set<nat>) returns (rest: nat)
    requires EdgesIn(edges, |net|) && AllTame(net, ids) && |ids| <= SEEN_CAP
    ensures rest <= |net| * |ids|
    ensures forall r: nat :: rest <= r ==>
              Rounds(net, edges, r) == Rounds(net, edges, rest) && Serve(Rounds(net, edges, r), edges).1 == 0
  {
    rest := 0;
    var bound := |net| * |ids|;
    hide AllTame, Serve;
    while Serve(Rounds(net, edges, rest), edges).1 > 0
      invariant rest <= AcceptedIn(net, edges, rest) <= bound
      decreases bound - AcceptedIn(net, edges, rest)
    {
      rest := rest + 1;
      AcceptedAtMost(net, edges, ids, rest);
    }
    RoundsTotals(net, edges, ids, rest);
    ServeTotals(Rounds(net, edges, rest), edges, ids);
    forall r: nat | rest <= r
      ensures Rounds(net, edges, r) == Rounds(net, edges, rest)
    {
      AtRest(net, edges, rest, r);
    }
  }

  lemma {:induction false} AtRest(net: seq<Site>, edges: seq<Edge>, rest: nat, r: nat)
    requires EdgesIn(edges, |net|) && rest <= r
    requires Round(Rounds(net, edges, rest), edges) == Rounds(net, edges, rest)
    ensures Rounds(net, edges, r) == Rounds(net, edges, rest)
    decreases r - rest
  {
    if rest < r {
      AtRest(net, edges, rest, r - 1);
    }
  }

  /** Acceptances over an arbitrary run of sends, contacts and drains. */
  function AcceptedOver(net: seq<Site>, trace: seq<Event>): nat
    decreases |trace|
  {
    if trace == [] then 0
    else
      var e, mid := trace[|trace| - 1], Run(net, trace[..|trace| - 1]);
      AcceptedOver(net, trace[..|trace| - 1])
      + if e.Contact? && e.from < |net| && e.to < |net| then Accepted(mid[e.to], Outbound(mid[e.from].node)) else 0
  }

  lemma {:induction false} RunTotals(net: seq<Site>, trace: seq<Event>, ids: set<nat>)
    requires AllTame(net, ids) && |ids| <= SEEN_CAP
    requires forall e :: e in trace && e.Send? ==> e.id in ids
    ensures AllTame(Run(net, trace), ids)
    ensures AcceptedOver(net, trace) <= TotalSeen(Run(net, trace))
    decreases |trace|
  {
    if trace != [] {
      var past, e := trace[..|trace| - 1], trace[|trace| - 1];
      RunTotals(net, past, ids);
      var mid := Run(net, past);
      if e.Contact? && e.from < |net| && e.to < |net| {
        assert Tame(mid[e.from].node, ids);
        OfferTotals(mid, e.to, mid[e.from].node, ids);
      } else if !e.Contact? && e.at < |net| {
        assert Tame(mid[e.at].node, ids);
        QuietStepTotals(mid, e, ids);
      }
    }
  }

  lemma {:induction false} SendTame(n: Node, e: Event, ids: set<nat>)
    requires Tame(n, ids) && |ids| <= SEEN_CAP && e.Send? && e.id in ids
    ensures var after := Originate(n, e.id, e.recipient, e.payload).0;
            Tame(after, ids) && |n.seen| <= |after.seen|
  {
    OriginateKeeps(n, e.id, e.recipient, e.payload);
    SeenNotEvicted(n, e.id, ids);
    MarkSeenKeeps(n, e.id);
    StoreFrameKeeps(MarkSeen(n, e.id), Frame(e.id, e.recipient, n.ttl, e.payload));
    SubsetSize(n.seen, n.seen + {e.id});
  }

  lemma {:induction false} QuietStepTotals(net: seq<Site>, e: Event, ids: set<nat>)
    requires !e.Contact? && e.at < |net| && AllTame(net, ids) && |ids| <= SEEN_CAP
    requires e.Send? ==> e.id in ids
    ensures AllTame(Step(net, e), ids) && TotalSeen(net) <= TotalSeen(Step(net, e))
  {
    var before, after := net[e.at], Step(net, e)[e.at];
    assert Step(net, e) == net[e.at := after];
    assert Tame(after.node, ids) && |before.node.seen| <= |after.node.seen| by {
      assert Tame(before.node, ids);
      if e.Send? {
        SendTame(before.node, e, ids);
      }
    }
    hide Tame, Originate, Step;
    TotalAfterUpdate(net, e.at, after);
  }

  /** However nodes meet, a network of N nodes and M ids, M at most `SEEN_CAP`, accepts frames at
      most N times M times. */
  lemma {:induction false} AcceptancesBounded(net: seq<Site>, trace: seq<Event>, ids: set<nat>)
    requires New(net) && |ids| <= SEEN_CAP
    requires forall e :: e in trace && e.Send? ==> e.id in ids
    ensures AcceptedOver(net, trace) <= |net| * |ids|
  {
    RunTotals(net, trace, ids);
    TotalAtMost(Run(net, trace), ids);
  }
}
