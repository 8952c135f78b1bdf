/** Packets forwarded hop by hop, each router using its own table. */
module RouterNet {
  import opened Collections
  import opened Graphs

  /** `dest` is the router of the destination node, if that node is known; `hops` counts links crossed. */
  datatype Packet = Packet(id: int, size: nat, origin: int, dest: Option<int>, hops: nat)

  // ---------------------------------------------------------------- all queues

  /** A packet waiting in the queue of router `from` towards `to`. */
  datatype Waiting = Waiting(from: int, to: int, pkt: Packet)

  /**
   * Waiting packets oldest first; a link's queue is the sub-sequence on that link. Packets are `dropped` at a
   * full queue, which counts them, and `strays` are those for no known node, which nobody counts.
   */
  datatype Traffic = Traffic(waiting: seq<Waiting>, delivered: seq<Packet>, dropped: seq<Packet>, strays: seq<Packet>)

  /** The network: topology, tables, queue limits, and the hop distance `dist` the tables follow. */
  datatype Net = Net(g: Graph, tbl: seq<seq<int>>, max: (int, int) -> nat, dist: (int, int) -> nat)

  /** The table entry of `s` for `d` is a neighbour one hop nearer. */
  ghost predicate EntryOk(net: Net, s: int, d: int)
    requires net.g.Shaped() && 0 <= s < |net.tbl| && 0 <= d < |net.tbl[s]|
  {
    var hop := net.tbl[s][d];
    net.g.Edge(s, hop) && net.dist(hop, d) + 1 == net.dist(s, d)
  }

  ghost predicate NetOk(net: Net) {
    && net.g.Valid()
    && |net.tbl| == net.g.n
    && (forall s :: 0 <= s < net.g.n ==> |net.tbl[s]| == net.g.n)
    && (forall s, d {:trigger net.tbl[s][d]} :: net.g.Node(s) && 0 <= d < net.g.n ==>
          if net.g.Node(d) && d != s then EntryOk(net, s, d) else net.tbl[s][d] == -1)
    && (forall s, d {:trigger net.dist(s, d)} :: net.g.Node(s) && net.g.Node(d) ==> (net.dist(s, d) == 0 <==> s == d))
  }

  ghost function HopDistance(g: Graph): (int, int) -> nat
    requires g.Valid() && Connected(g)
  {
    (s, v) => if g.Node(s) && g.Node(v) then Dist(g, s, v) else 0
  }

  /** The tables every router built for itself, in a connected topology, make such a network. */
  lemma TablesMakeNet(g: Graph, tbl: seq<seq<int>>, max: (int, int) -> nat)
    requires g.Valid() && Connected(g) && TablesOk(g, tbl)
    ensures NetOk(Net(g, tbl, max, HopDistance(g)))
  {
    var net := Net(g, tbl, max, HopDistance(g));
    forall s, d | g.Node(s) && 0 <= d < g.n
      ensures if g.Node(d) && d != s then EntryOk(net, s, d) else tbl[s][d] == -1
    {
      if g.Node(d) && d != s { NearerDist(g, s, tbl[s][d], d); }
    }
    forall s, d | g.Node(s) && g.Node(d) ensures net.dist(s, d) == 0 <==> s == d {
      DistZero(g, s, d);
    }
  }

  function QueueLength(ws: seq<Waiting>, from: int, to: int): nat {
    if ws == [] then 0
    else QueueLength(ws[..|ws| - 1], from, to) + if ws[|ws| - 1].from == from && ws[|ws| - 1].to == to then 1 else 0
  }

  function Lookup(net: Net, r: int, d: int): int {
    if 0 <= r < |net.tbl| && 0 <= d < |net.tbl[r]| then net.tbl[r][d] else -1
  }

  /** A router takes a packet; no result means the simulator dies for want of a queue. */
  function Receive(net: Net, t: Traffic, r: int, p: Packet): Option<Traffic> {
    match p.dest
    case None => Some(t.(strays := t.strays + [p]))
    case Some(d) =>
      if d == r then Some(t.(delivered := t.delivered + [p]))
      else
        var hop := Lookup(net, r, d);
        if hop == -1 then None
        else if QueueLength(t.waiting, r, hop) >= net.max(r, hop) then Some(t.(dropped := t.dropped + [p]))
        else Some(t.(waiting := t.waiting + [Waiting(r, hop, p)]))
  }

  /** The packet at `i` is the oldest of its link. */
  predicate Oldest(ws: seq<Waiting>, i: int) {
    0 <= i < |ws| && forall j :: 0 <= j < i ==> ws[j].from != ws[i].from || ws[j].to != ws[i].to
  }

  function Without(t: Traffic, i: int): Traffic
    requires 0 <= i < |t.waiting|
  {
    t.(waiting := t.waiting[..i] + t.waiting[i + 1..])
  }

  function OneHopOn(p: Packet): Packet { p.(hops := p.hops + 1) }

  /** Take the packet at `i` across its link. */
  function Cross(net: Net, t: Traffic, i: int): Option<Traffic>
    requires Oldest(t.waiting, i)
  {
    var w := t.waiting[i];
    Receive(net, Without(t, i), w.to, OneHopOn(w.pkt))
  }

  // ---------------------------------------------------------------- what every run keeps

  /** A waiting packet is on a shortest walk from its origin to its destination. */
  ghost predicate OnCourse(net: Net, w: Waiting)
    requires NetOk(net)
  {
    && net.g.Edge(w.from, w.to) && net.g.Node(w.pkt.origin)
    && w.pkt.dest.Some? && net.g.Node(w.pkt.dest.value)
    && w.pkt.hops + 1 + net.dist(w.to, w.pkt.dest.value) == net.dist(w.pkt.origin, w.pkt.dest.value)
  }

  /** A delivered packet crossed exactly as many links as its origin is away. */
  ghost predicate Arrived(net: Net, p: Packet)
    requires NetOk(net)
  {
    && net.g.Node(p.origin) && p.dest.Some? && net.g.Node(p.dest.value)
    && p.hops == net.dist(p.origin, p.dest.value)
  }

  ghost predicate AllOnCourse(net: Net, ws: seq<Waiting>)
    requires NetOk(net)
  {
    forall i :: 0 <= i < |ws| ==> OnCourse(net, ws[i])
  }

  ghost predicate Inv(net: Net, t: Traffic)
    requires NetOk(net)
  {
    && AllOnCourse(net, t.waiting)
    && (forall i :: 0 <= i < |t.delivered| ==> Arrived(net, t.delivered[i]))
    && (forall i :: 0 <= i < |t.strays| ==> t.strays[i].dest == None)
  }

  /** The simulator dies exactly when the destination is another number that is no router. */
  lemma DiesOnlyWithoutRouter(net: Net, t: Traffic, r: int, p: Packet)
    requires NetOk(net) && net.g.Node(r)
    ensures Receive(net, t, r, p) == None <==> p.dest.Some? && p.dest.value != r && !net.g.Node(p.dest.value)
  {
    if p.dest.Some? && p.dest.value != r {
      var d := p.dest.value;
      if net.g.Node(d) { assert EntryOk(net, r, d); }
    }
  }

  /** A packet at router `r` has come by a shortest way so far. */
  ghost predicate OnTrack(net: Net, r: int, p: Packet)
    requires NetOk(net)
  {
    && net.g.Node(r) && net.g.Node(p.origin)
    && (p.dest.Some? ==>
          && net.g.Node(p.dest.value)
          && p.hops + net.dist(r, p.dest.value) == net.dist(p.origin, p.dest.value))
  }

  ghost predicate Queued(net: Net, t: Traffic, r: int, p: Packet, hop: int, t': Traffic)
    requires NetOk(net) && OnTrack(net, r, p)
  {
    && p.dest.Some? && net.dist(hop, p.dest.value) + 1 == net.dist(r, p.dest.value) && OnCourse(net, Waiting(r, hop, p))
    && t' == t.(waiting := t.waiting + [Waiting(r, hop, p)])
  }

  /** What receiving a packet on track can do: deliver it, drop it, or queue it one hop nearer. */
  ghost predicate Handled(net: Net, t: Traffic, r: int, p: Packet, t': Traffic)
    requires NetOk(net) && OnTrack(net, r, p)
  {
    || (Arrived(net, p) && p.dest == Some(r) && t' == t.(delivered := t.delivered + [p]))
    || (p.dest == None && t' == t.(strays := t.strays + [p]))
    || t' == t.(dropped := t.dropped + [p])
    || exists hop :: Queued(net, t, r, p, hop, t')
  }

  lemma ReceiveHandles(net: Net, t: Traffic, r: int, p: Packet)
    requires NetOk(net) && OnTrack(net, r, p)
    ensures Receive(net, t, r, p).Some? && Handled(net, t, r, p, Receive(net, t, r, p).value)
  {
    DiesOnlyWithoutRouter(net, t, r, p);
    if p.dest.Some? {
      var d := p.dest.value;
      if d != r {
        var hop := net.tbl[r][d];
        assert EntryOk(net, r, d);
        assert OnCourse(net, Waiting(r, hop, p));
        if QueueLength(t.waiting, r, hop) < net.max(r, hop) {
          assert Queued(net, t, r, p, hop, Receive(net, t, r, p).value);
        }
      }
    }
  }

  lemma HandledKeeps(net: Net, t: Traffic, r: int, p: Packet, t': Traffic)
    requires NetOk(net) && Inv(net, t) && OnTrack(net, r, p) && Handled(net, t, r, p, t')
    ensures Inv(net, t')
  {
  }

  /** A packet that has crossed its link is on track at the other end. */
  lemma Crossed(net: Net, w: Waiting)
    requires NetOk(net) && OnCourse(net, w)
    ensures OnTrack(net, w.to, OneHopOn(w.pkt))
  {
  }

  lemma RestKeeps(net: Net, t: Traffic, i: int)
    requires NetOk(net) && Inv(net, t) && 0 <= i < |t.waiting|
    ensures Inv(net, Without(t, i))
  {
    var ws := t.waiting[..i] + t.waiting[i + 1..];
    forall k | 0 <= k < |ws| ensures OnCourse(net, ws[k]) {
      assert ws[k] == if k < i then t.waiting[k] else t.waiting[k + 1];
    }
  }

  /** A crossing never dies and keeps every packet on course. */
  lemma CrossKeeps(net: Net, t: Traffic, i: int)
    requires NetOk(net) && Inv(net, t) && Oldest(t.waiting, i)
    ensures Cross(net, t, i).Some? && Inv(net, Cross(net, t, i).value)
  {
    var w := t.waiting[i];
    Crossed(net, w);
    var rest := Without(t, i);
    var p := OneHopOn(w.pkt);
    RestKeeps(net, t, i);
    ReceiveHandles(net, rest, w.to, p);
    HandledKeeps(net, rest, w.to, p, Receive(net, rest, w.to, p).value);
  }

  // ---------------------------------------------------------------- runs

  const QUIET := Traffic([], [], [], [])

  datatype Event = Inject(router: int, pkt: Packet) | Move(index: int)

  /** A fresh packet can enter at any router, for whatever destination; the oldest packet of any link can move. */
  ghost predicate Possible(net: Net, t: Traffic, e: Event)
    requires NetOk(net)
  {
    match e
    case Inject(r, p) => net.g.Node(r) && p.origin == r && p.hops == 0
    case Move(i) => Oldest(t.waiting, i)
  }

  /** No result means the simulator dies. */
  ghost function Next(net: Net, t: Traffic, e: Event): Option<Traffic>
    requires NetOk(net) && Possible(net, t, e)
  {
    match e
    case Inject(r, p) => Receive(net, t, r, p)
    case Move(i) => Cross(net, t, i)
  }

  datatype Outcome = Impossible | Died | Ended(traffic: Traffic)

  ghost function Exec(net: Net, t: Traffic, es: seq<Event>): Outcome
    requires NetOk(net)
    decreases |es|
  {
    if es == [] then Ended(t)
    else if !Possible(net, t, es[0]) then Impossible
    else match Next(net, t, es[0])
      case None => Died
      case Some(t1) => Exec(net, t1, es[1..])
  }

  /** `es` leads from `t` to `t'`. */
  ghost predicate Leads(net: Net, t: Traffic, es: seq<Event>, t': Traffic)
    requires NetOk(net)
  {
    Exec(net, t, es) == Ended(t')
  }

  /** A packet that enters for another number that is no router. */
  ghost predicate NoSuchRouter(net: Net, e: Event)
    requires NetOk(net)
  {
    e.Inject? && e.pkt.dest.Some? && e.pkt.dest.value != e.router && !net.g.Node(e.pkt.dest.value)
  }

  /** An event kills the simulator exactly when it brings in such a packet; otherwise every packet stays on course. */
  lemma NextKeeps(net: Net, t: Traffic, e: Event)
    requires NetOk(net) && Inv(net, t) && Possible(net, t, e)
    ensures Next(net, t, e) == None <==> NoSuchRouter(net, e)
    ensures Next(net, t, e).Some? ==> Inv(net, Next(net, t, e).value)
  {
    match e
    case Inject(r, p) =>
      DiesOnlyWithoutRouter(net, t, r, p);
      if !NoSuchRouter(net, e) {
        assert OnTrack(net, r, p);
        ReceiveHandles(net, t, r, p);
        HandledKeeps(net, t, r, p, Receive(net, t, r, p).value);
      }
    case Move(i) => CrossKeeps(net, t, i);
  }

  /** In every run all packets stay on course. */
  lemma {:induction false} RunKeeps(net: Net, t: Traffic, es: seq<Event>, t': Traffic)
    requires NetOk(net) && Inv(net, t) && Leads(net, t, es, t')
    ensures Inv(net, t')
    decreases |es|
  {
    if es == [] {
    } else {
      NextKeeps(net, t, es[0]);
      RunKeeps(net, Next(net, t, es[0]).value, es[1..], t');
    }
  }

  /** A run of possible events dies exactly when some packet in it names another number that is no router. */
  lemma {:induction false} DiesExactly(net: Net, t: Traffic, es: seq<Event>)
    requires NetOk(net) && Inv(net, t) && Exec(net, t, es) != Impossible
    ensures Exec(net, t, es) == Died <==> exists k :: 0 <= k < |es| && NoSuchRouter(net, es[k])
    decreases |es|
  {
    if es == [] {
    } else {
      NextKeeps(net, t, es[0]);
      if Next(net, t, es[0]).Some? {
        var rest := es[1..];
        DiesExactly(net, Next(net, t, es[0]).value, rest);
        assert forall k :: 0 <= k < |rest| ==> rest[k] == es[k + 1];
        assert forall k :: 1 <= k < |es| ==> es[k] == rest[k - 1];
      }
    }
  }

  // ---------------------------------------------------------------- no loops

  /** Links a waiting packet still has to cross. */
  ghost function LinksLeft(net: Net, w: Waiting): nat
    requires NetOk(net) && OnCourse(net, w)
  {
    1 + net.dist(w.to, w.pkt.dest.value)
  }

  ghost function Sum(xs: seq<nat>): nat {
    if xs == [] then 0 else Sum(xs[..|xs| - 1]) + xs[|xs| - 1]
  }

  lemma RemoveBeforeLast<T>(xs: seq<T>, i: nat, init: seq<T>, rest: seq<T>)
    requires i < |xs| - 1 && init == xs[..|xs| - 1] && rest == xs[..i] + xs[i + 1..]
    ensures init[i] == xs[i] && rest == (init[..i] + init[i + 1..]) + [xs[|xs| - 1]]
  {
  }

  lemma SumAppend(xs: seq<nat>, x: nat)
    ensures Sum(xs + [x]) == Sum(xs) + x
  {
    assert (xs + [x])[..|xs|] == xs;
  }

  lemma {:induction false} SumRemove(xs: seq<nat>, i: nat)
    requires i < |xs|
    ensures Sum(xs) == Sum(xs[..i] + xs[i + 1..]) + xs[i]
    decreases |xs|
  {
    var init, rest := xs[..|xs| - 1], xs[..i] + xs[i + 1..];
    if i == |xs| - 1 {
      assert rest == init;
    } else {
      SumRemove(init, i);
      RemoveBeforeLast(xs, i, init, rest);
      SumAppend(init[..i] + init[i + 1..], xs[|xs| - 1]);
    }
  }

  ghost function Left(net: Net, ws: seq<Waiting>): (r: seq<nat>)
    requires NetOk(net) && AllOnCourse(net, ws)
    ensures |r| == |ws| && forall i :: 0 <= i < |ws| ==> r[i] == LinksLeft(net, ws[i])
  {
    seq(|ws|, i requires 0 <= i < |ws| => LinksLeft(net, ws[i]))
  }

  /** Links all waiting packets together still have to cross. */
  ghost function Work(net: Net, ws: seq<Waiting>): nat
    requires NetOk(net) && AllOnCourse(net, ws)
  {
    Sum(Left(net, ws))
  }

  lemma LeftRemove(net: Net, ws: seq<Waiting>, i: nat, rest: seq<Waiting>)
    requires NetOk(net) && i < |ws| && rest == ws[..i] + ws[i + 1..]
    requires AllOnCourse(net, ws) && AllOnCourse(net, rest)
    ensures Left(net, rest) == Left(net, ws)[..i] + Left(net, ws)[i + 1..]
  {
    var xs, ys := Left(net, ws), Left(net, rest);
    forall k | 0 <= k < |rest| ensures ys[k] == (xs[..i] + xs[i + 1..])[k] {
      assert rest[k] == if k < i then ws[k] else ws[k + 1];
    }
  }

  lemma WorkRemove(net: Net, ws: seq<Waiting>, i: nat)
    requires NetOk(net) && i < |ws| && AllOnCourse(net, ws) && AllOnCourse(net, ws[..i] + ws[i + 1..])
    ensures Work(net, ws) == Work(net, ws[..i] + ws[i + 1..]) + LinksLeft(net, ws[i])
  {
    SumRemove(Left(net, ws), i);
    LeftRemove(net, ws, i, ws[..i] + ws[i + 1..]);
  }

  lemma WorkAppend(net: Net, ws: seq<Waiting>, w: Waiting)
    requires NetOk(net) && OnCourse(net, w) && AllOnCourse(net, ws) && AllOnCourse(net, ws + [w])
    ensures Work(net, ws + [w]) == Work(net, ws) + LinksLeft(net, w)
  {
    assert Left(net, ws + [w])[..|ws|] == Left(net, ws);
  }

  lemma HandledWorks(net: Net, t: Traffic, r: int, p: Packet, t': Traffic)
    requires NetOk(net) && Inv(net, t) && OnTrack(net, r, p) && p.dest.Some?
    requires Handled(net, t, r, p, t') && Inv(net, t')
    ensures t'.dropped != t.dropped ==> Work(net, t'.waiting) == Work(net, t.waiting)
    ensures t'.dropped == t.dropped ==> Work(net, t'.waiting) == Work(net, t.waiting) + net.dist(r, p.dest.value)
  {
    if t'.dropped != t.dropped {
      assert t'.waiting == t.waiting;
    } else if t'.waiting == t.waiting {
    } else {
      var hop :| Queued(net, t, r, p, hop, t');
      WorkAppend(net, t.waiting, Waiting(r, hop, p));
    }
  }

  /** Each crossing brings one packet one hop nearer, delivers it, or drops it. */
  lemma CrossWorks(net: Net, t: Traffic, i: int)
    requires NetOk(net) && Inv(net, t) && Oldest(t.waiting, i)
    ensures Cross(net, t, i).Some? && Inv(net, Cross(net, t, i).value)
    ensures var t' := Cross(net, t, i).value;
      if t'.dropped == t.dropped then Work(net, t'.waiting) + 1 == Work(net, t.waiting)
      else Work(net, t'.waiting) + LinksLeft(net, t.waiting[i]) == Work(net, t.waiting)
  {
    var w := t.waiting[i];
    CrossKeeps(net, t, i);
    Crossed(net, w);
    var rest := Without(t, i);
    var p := OneHopOn(w.pkt);
    RestKeeps(net, t, i);
    WorkRemove(net, t.waiting, i);
    ReceiveHandles(net, rest, w.to, p);
    HandledWorks(net, rest, w.to, p, Receive(net, rest, w.to, p).value);
  }

  ghost predicate AllMoves(es: seq<Event>) { forall k :: 0 <= k < |es| ==> es[k].Move? }

  /** Without new packets only as many crossings are possible as there are hops left to make. */
  lemma {:induction false} NoLoops(net: Net, t: Traffic, es: seq<Event>, t': Traffic)
    requires NetOk(net) && Inv(net, t) && Leads(net, t, es, t')
    requires AllMoves(es)
    ensures Inv(net, t') && |es| + Work(net, t'.waiting) <= Work(net, t.waiting)
    decreases |es|
  {
    if es == [] {
    } else {
      CrossWorks(net, t, es[0].index);
      NoLoops(net, Next(net, t, es[0]).value, es[1..], t');
    }
  }

  /** A run of crossings that cannot go on has left no packet waiting. */
  lemma NoneLeft(net: Net, t: Traffic)
    requires NetOk(net) && forall i :: !Possible(net, t, Move(i))
    ensures t.waiting == []
  {
    assert !Possible(net, t, Move(0));
  }

  /** Crossings alone empty all queues. */
  lemma {:induction false} Drain(net: Net, t: Traffic) returns (es: seq<Event>, t': Traffic)
    requires NetOk(net) && Inv(net, t)
    ensures AllMoves(es) && |es| <= Work(net, t.waiting)
    ensures Leads(net, t, es, t') && t'.waiting == []
    decreases Work(net, t.waiting)
  {
    if t.waiting == [] {
      es, t' := [], t;
    } else {
      CrossWorks(net, t, 0);
      var rest;
      rest, t' := Drain(net, Cross(net, t, 0).value);
      es := [Move(0)] + rest;
      assert es[1..] == rest;
    }
  }

  // ---------------------------------------------------------------- queue limits

  /** No queue is longer than its limit. */
  ghost predicate WithinLimits(net: Net, t: Traffic) {
    forall from, to :: QueueLength(t.waiting, from, to) <= net.max(from, to)
  }

  lemma QueueLengthAppend(ws: seq<Waiting>, w: Waiting, from: int, to: int)
    ensures QueueLength(ws + [w], from, to) == QueueLength(ws, from, to) + if w.from == from && w.to == to then 1 else 0
  {
    assert (ws + [w])[..|ws|] == ws;
  }

  lemma {:induction false} QueueLengthConcat(xs: seq<Waiting>, ys: seq<Waiting>, from: int, to: int)
    ensures QueueLength(xs + ys, from, to) == QueueLength(xs, from, to) + QueueLength(ys, from, to)
    decreases |ys|
  {
    if ys == [] {
      assert xs + ys == xs;
    } else {
      var init, last := ys[..|ys| - 1], ys[|ys| - 1];
      QueueLengthConcat(xs, init, from, to);
      QueueLengthAppend(xs + init, last, from, to);
      assert xs + ys == xs + init + [last];
    }
  }

  lemma WithoutShortens(t: Traffic, i: int, from: int, to: int)
    requires 0 <= i < |t.waiting|
    ensures QueueLength(Without(t, i).waiting, from, to) <= QueueLength(t.waiting, from, to)
  {
    var a, w, b := t.waiting[..i], t.waiting[i], t.waiting[i + 1..];
    QueueLengthConcat(a, b, from, to);
    QueueLengthConcat(a + [w], b, from, to);
    QueueLengthAppend(a, w, from, to);
    assert t.waiting == a + [w] + b;
  }

  lemma ReceiveWithinLimits(net: Net, t: Traffic, r: int, p: Packet)
    requires WithinLimits(net, t) && Receive(net, t, r, p).Some?
    ensures WithinLimits(net, Receive(net, t, r, p).value)
  {
    var t' := Receive(net, t, r, p).value;
    if t'.waiting != t.waiting {
      var hop := Lookup(net, r, p.dest.value);
      forall from, to ensures QueueLength(t'.waiting, from, to) <= net.max(from, to) {
        QueueLengthAppend(t.waiting, Waiting(r, hop, p), from, to);
      }
    }
  }

  /** In every run all queues stay within their limits. */
  lemma {:induction false} RunWithinLimits(net: Net, t: Traffic, es: seq<Event>, t': Traffic)
    requires NetOk(net) && WithinLimits(net, t) && Leads(net, t, es, t')
    ensures WithinLimits(net, t')
    decreases |es|
  {
    if es == [] {
    } else {
      match es[0] {
        case Inject(r, p) => ReceiveWithinLimits(net, t, r, p);
        case Move(i) =>
          forall from, to ensures QueueLength(Without(t, i).waiting, from, to) <= net.max(from, to) {
            WithoutShortens(t, i, from, to);
          }
          ReceiveWithinLimits(net, Without(t, i), t.waiting[i].to, OneHopOn(t.waiting[i].pkt));
      }
      RunWithinLimits(net, Next(net, t, es[0]).value, es[1..], t');
    }
  }

  // ---------------------------------------------------------------- drops

  /** The queue in which router `r` would put `p` is full. */
  predicate FullFor(net: Net, ws: seq<Waiting>, r: int, p: Packet) {
    p.dest.Some? && p.dest.value != r
    && var hop := Lookup(net, r, p.dest.value); hop != -1 && net.max(r, hop) <= QueueLength(ws, r, hop)
  }

  /** A packet is dropped exactly when its queue is full. */
  lemma DropsExactly(net: Net, t: Traffic, r: int, p: Packet)
    requires Receive(net, t, r, p).Some?
    ensures Receive(net, t, r, p).value.dropped == if FullFor(net, t.waiting, r, p) then t.dropped + [p] else t.dropped
  {
  }

  lemma QueueLengthAtMost(ws: seq<Waiting>, from: int, to: int)
    ensures QueueLength(ws, from, to) <= |ws|
  {
  }

  /** How many packets enter. */
  ghost function Injections(es: seq<Event>): nat {
    if es == [] then 0 else (if es[0].Inject? then 1 else 0) + Injections(es[1..])
  }

  /** While every limit exceeds the packets under way, nothing is dropped. */
  lemma NextDropsNothing(net: Net, t: Traffic, e: Event, room: nat)
    requires NetOk(net) && Possible(net, t, e) && Next(net, t, e).Some?
    requires |t.waiting| + (if e.Inject? then 1 else 0) <= room && forall from, to :: room <= net.max(from, to)
    ensures var t' := Next(net, t, e).value;
      t'.dropped == t.dropped && |t'.waiting| <= |t.waiting| + if e.Inject? then 1 else 0
  {
    match e
    case Inject(r, p) =>
      DropsExactly(net, t, r, p);
      if p.dest.Some? { QueueLengthAtMost(t.waiting, r, Lookup(net, r, p.dest.value)); }
    case Move(i) =>
      var rest, w := Without(t, i), t.waiting[i];
      DropsExactly(net, rest, w.to, OneHopOn(w.pkt));
      if w.pkt.dest.Some? { QueueLengthAtMost(rest.waiting, w.to, Lookup(net, w.to, w.pkt.dest.value)); }
  }

  /** If every queue has room for all packets of a run, none of them is dropped. */
  lemma {:induction false} NothingDropped(net: Net, t: Traffic, es: seq<Event>, t': Traffic, room: nat)
    requires NetOk(net) && Leads(net, t, es, t')
    requires |t.waiting| + Injections(es) <= room && forall from, to :: room <= net.max(from, to)
    ensures t'.dropped == t.dropped && |t'.waiting| <= |t.waiting| + Injections(es)
    decreases |es|
  {
    if es == [] {
    } else {
      NextDropsNothing(net, t, es[0], room);
      NothingDropped(net, Next(net, t, es[0]).value, es[1..], t', room);
    }
  }

  // ---------------------------------------------------------------- conservation

  /** A packet as it was injected. */
  function Original(p: Packet): Packet { p.(hops := 0) }

  ghost function Originals(ps: seq<Packet>): multiset<Packet> {
    if ps == [] then multiset{} else Originals(ps[..|ps| - 1]) + multiset{Original(ps[|ps| - 1])}
  }

  ghost function WaitingOriginals(ws: seq<Waiting>): multiset<Packet> {
    if ws == [] then multiset{} else WaitingOriginals(ws[..|ws| - 1]) + multiset{Original(ws[|ws| - 1].pkt)}
  }

  ghost function Everything(t: Traffic): multiset<Packet> {
    WaitingOriginals(t.waiting) + Originals(t.delivered) + Originals(t.dropped) + Originals(t.strays)
  }

  ghost function Entering(e: Event): multiset<Packet> {
    if e.Inject? then multiset{Original(e.pkt)} else multiset{}
  }

  ghost function Injected(es: seq<Event>): multiset<Packet> {
    if es == [] then multiset{} else Entering(es[0]) + Injected(es[1..])
  }

  lemma OriginalsAppend(ps: seq<Packet>, p: Packet)
    ensures Originals(ps + [p]) == Originals(ps) + multiset{Original(p)}
  {
    assert (ps + [p])[..|ps|] == ps;
  }

  lemma WaitingAppend(ws: seq<Waiting>, w: Waiting)
    ensures WaitingOriginals(ws + [w]) == WaitingOriginals(ws) + multiset{Original(w.pkt)}
  {
    assert (ws + [w])[..|ws|] == ws;
  }

  lemma AddDelivered(t: Traffic, p: Packet)
    ensures Everything(t.(delivered := t.delivered + [p])) == Everything(t) + multiset{Original(p)}
  {
    OriginalsAppend(t.delivered, p);
  }

  lemma AddDropped(t: Traffic, p: Packet)
    ensures Everything(t.(dropped := t.dropped + [p])) == Everything(t) + multiset{Original(p)}
  {
    OriginalsAppend(t.dropped, p);
  }

  lemma AddStray(t: Traffic, p: Packet)
    ensures Everything(t.(strays := t.strays + [p])) == Everything(t) + multiset{Original(p)}
  {
    OriginalsAppend(t.strays, p);
  }

  lemma AddWaiting(t: Traffic, w: Waiting)
    ensures Everything(t.(waiting := t.waiting + [w])) == Everything(t) + multiset{Original(w.pkt)}
  {
    WaitingAppend(t.waiting, w);
  }

  lemma ReceiveConserves(net: Net, t: Traffic, r: int, p: Packet)
    requires Receive(net, t, r, p).Some?
    ensures Everything(Receive(net, t, r, p).value) == Everything(t) + multiset{Original(p)}
  {
    AddDelivered(t, p);
    AddDropped(t, p);
    AddStray(t, p);
    if p.dest.Some? { AddWaiting(t, Waiting(r, Lookup(net, r, p.dest.value), p)); }
  }

  lemma SwapLast(m: multiset<Packet>, x: Packet, y: Packet)
    ensures m + multiset{x} + multiset{y} == m + multiset{y} + multiset{x}
  {
  }

  lemma {:induction false} WaitingRemove(ws: seq<Waiting>, i: nat)
    requires i < |ws|
    ensures WaitingOriginals(ws) == WaitingOriginals(ws[..i] + ws[i + 1..]) + multiset{Original(ws[i].pkt)}
    decreases |ws|
  {
    var last := |ws| - 1;
    var front, all := ws[..last], ws[..i] + ws[i + 1..];
    if i == last {
      assert all == front;
    } else {
      WaitingRemove(front, i);
      var rest := front[..i] + front[i + 1..];
      RemoveBeforeLast(ws, i, front, all);
      WaitingAppend(rest, ws[last]);
      SwapLast(WaitingOriginals(rest), Original(ws[i].pkt), Original(ws[last].pkt));
    }
  }

  lemma RemoveWaiting(t: Traffic, i: int)
    requires 0 <= i < |t.waiting|
    ensures Everything(t) == Everything(Without(t, i)) + multiset{Original(t.waiting[i].pkt)}
  {
    WaitingRemove(t.waiting, i);
  }

  lemma CrossConserves(net: Net, t: Traffic, i: int)
    requires Oldest(t.waiting, i) && Cross(net, t, i).Some?
    ensures Everything(Cross(net, t, i).value) == Everything(t)
  {
    RemoveWaiting(t, i);
    ReceiveConserves(net, Without(t, i), t.waiting[i].to, OneHopOn(t.waiting[i].pkt));
    assert Original(OneHopOn(t.waiting[i].pkt)) == Original(t.waiting[i].pkt);
  }

  lemma NextConserves(net: Net, t: Traffic, e: Event)
    requires NetOk(net) && Possible(net, t, e) && Next(net, t, e).Some?
    ensures Everything(Next(net, t, e).value) == Everything(t) + Entering(e)
  {
    match e
    case Inject(r, p) => ReceiveConserves(net, t, r, p);
    case Move(i) => CrossConserves(net, t, i);
  }

  lemma RegroupSum(a: multiset<Packet>, b: multiset<Packet>, c: multiset<Packet>)
    ensures (a + b) + c == a + (b + c)
  {
  }

  /** Every packet injected is waiting, delivered, dropped or astray, and nothing else is. */
  lemma {:induction false} Conservation(net: Net, t: Traffic, es: seq<Event>, t': Traffic)
    requires NetOk(net) && Leads(net, t, es, t')
    ensures Everything(t') == Everything(t) + Injected(es)
    decreases |es|
  {
    if es == [] {
    } else {
      NextConserves(net, t, es[0]);
      Conservation(net, Next(net, t, es[0]).value, es[1..], t');
      RegroupSum(Everything(t), Entering(es[0]), Injected(es[1..]));
    }
  }

  // ---------------------------------------------------------------- every connected topology

  ghost function NetOf(g: Graph, tbl: seq<seq<int>>, max: (int, int) -> nat): (net: Net)
    requires g.Valid() && Connected(g) && TablesOk(g, tbl)
    ensures NetOk(net) && net.g == g && net.tbl == tbl && net.max == max
    ensures forall s, v :: g.Node(s) && g.Node(v) ==> net.dist(s, v) == Dist(g, s, v)
  {
    TablesMakeNet(g, tbl, max);
    Net(g, tbl, max, HopDistance(g))
  }

  /** What every state of a run over the routers' own tables keeps. */
  lemma ForwardingWorks(g: Graph, tbl: seq<seq<int>>, max: (int, int) -> nat, es: seq<Event>, t: Traffic)
    requires g.Valid() && Connected(g) && TablesOk(g, tbl) && Leads(NetOf(g, tbl, max), QUIET, es, t)
    ensures forall p :: p in t.delivered ==>
              g.Node(p.origin) && p.dest.Some? && g.Node(p.dest.value) && p.hops == Dist(g, p.origin, p.dest.value)
    ensures WithinLimits(NetOf(g, tbl, max), t)
    ensures Everything(t) == Injected(es)
  {
    var net := NetOf(g, tbl, max);
    RunKeeps(net, QUIET, es, t);
    RunWithinLimits(net, QUIET, es, t);
    Conservation(net, QUIET, es, t);
    forall p | p in t.delivered ensures Arrived(net, p) {
      var i :| 0 <= i < |t.delivered| && t.delivered[i] == p;
    }
  }

  /** The simulator dies in a run exactly when a packet names another number that is no router. */
  lemma SimulatorDies(g: Graph, tbl: seq<seq<int>>, max: (int, int) -> nat, es: seq<Event>)
    requires g.Valid() && Connected(g) && TablesOk(g, tbl) && Exec(NetOf(g, tbl, max), QUIET, es) != Impossible
    ensures var net := NetOf(g, tbl, max);
      Exec(net, QUIET, es) == Died <==> exists k :: 0 <= k < |es| && NoSuchRouter(net, es[k])
  {
    DiesExactly(NetOf(g, tbl, max), QUIET, es);
  }

  // ---------------------------------------------------------------- arrival

  /** `p`, as it was injected, is among `ps`, with its hops counted. */
  ghost predicate Among(ps: seq<Packet>, p: Packet) {
    exists i :: 0 <= i < |ps| && Original(ps[i]) == p
  }

  lemma {:induction false} OriginalsAmong(ps: seq<Packet>, p: Packet)
    requires p in Originals(ps)
    ensures Among(ps, p)
  {
    var last := |ps| - 1;
    if Original(ps[last]) == p {
    } else {
      OriginalsAmong(ps[..last], p);
      var i :| 0 <= i < last && Original(ps[..last][i]) == p;
      assert Original(ps[i]) == p;
    }
  }

  /** `p` has been delivered over a shortest path. */
  ghost predicate DeliveredShortest(g: Graph, t: Traffic, p: Packet)
    requires g.Valid() && Connected(g)
  {
    exists i :: 0 <= i < |t.delivered| && Original(t.delivered[i]) == p &&
      g.Node(p.origin) && p.dest.Some? && g.Node(p.dest.value) && t.delivered[i].hops == Dist(g, p.origin, p.dest.value)
  }

  lemma {:induction false} MovesInjectNothing(es: seq<Event>)
    requires AllMoves(es)
    ensures Injected(es) == multiset{} && Injections(es) == 0
    decreases |es|
  {
    if es == [] {
    } else {
      MovesInjectNothing(es[1..]);
    }
  }

  /** Once the queues are empty, a packet for a known destination has been delivered over a shortest path or dropped. */
  lemma Settled(g: Graph, tbl: seq<seq<int>>, max: (int, int) -> nat, t: Traffic, p: Packet)
    requires g.Valid() && Connected(g) && TablesOk(g, tbl) && Inv(NetOf(g, tbl, max), t) && t.waiting == []
    requires p in Everything(t) && p.dest.Some?
    ensures DeliveredShortest(g, t, p) || Among(t.dropped, p)
  {
    if p in Originals(t.delivered) {
      OriginalsAmong(t.delivered, p);
      var i :| 0 <= i < |t.delivered| && Original(t.delivered[i]) == p;
      assert Arrived(NetOf(g, tbl, max), t.delivered[i]);
    } else if p in Originals(t.dropped) {
      OriginalsAmong(t.dropped, p);
    } else {
      OriginalsAmong(t.strays, p);
    }
  }

  /**
   * After any run, let the waiting packets cross for as long as they can: it ends after at most as many
   * crossings as hops are left, every packet for a known destination is then delivered over a shortest path
   * or was dropped at a full queue, and none was dropped if every queue had room for them all.
   */
  lemma PacketsArrive(g: Graph, tbl: seq<seq<int>>, max: (int, int) -> nat,
                      es: seq<Event>, t: Traffic, more: seq<Event>, t': Traffic)
    requires g.Valid() && Connected(g) && TablesOk(g, tbl)
    requires Leads(NetOf(g, tbl, max), QUIET, es, t) && Leads(NetOf(g, tbl, max), t, more, t') && AllMoves(more)
    requires forall i :: !Possible(NetOf(g, tbl, max), t', Move(i))
    ensures t'.waiting == []
    ensures forall p :: p in Injected(es) && p.dest.Some? ==> DeliveredShortest(g, t', p) || Among(t'.dropped, p)
    ensures (forall from, to :: Injections(es) <= max(from, to)) ==> t'.dropped == []
  {
    var net := NetOf(g, tbl, max);
    NoneLeft(net, t');
    RunKeeps(net, QUIET, es, t);
    RunKeeps(net, t, more, t');
    Conservation(net, QUIET, es, t);
    Conservation(net, t, more, t');
    MovesInjectNothing(more);
    forall p | p in Injected(es) && p.dest.Some? ensures DeliveredShortest(g, t', p) || Among(t'.dropped, p) {
      Settled(g, tbl, max, t', p);
    }
    if forall from, to :: Injections(es) <= max(from, to) {
      NothingDropped(net, QUIET, es, t, Injections(es));
      NothingDropped(net, t, more, t', Injections(es));
    }
  }
}
