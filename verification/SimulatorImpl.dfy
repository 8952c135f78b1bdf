/** The simulator as it runs: one queue object for each link, emptied link by link. */
module SimulatorImpl {
  import opened Collections
  import opened Graphs
  import opened RouterNet

  // ---------------------------------------------------------------- one queue

  ghost function TotalSize(queue: seq<Packet>): nat {
    if queue == [] then 0 else queue[0].size + TotalSize(queue[1..])
  }

  lemma {:induction false} TotalSizeAppend(queue: seq<Packet>, pkt: Packet)
    ensures TotalSize(queue + [pkt]) == TotalSize(queue) + pkt.size
  {
    if queue == [] {
      assert queue + [pkt] == [pkt];
    } else {
      assert (queue + [pkt])[1..] == queue[1..] + [pkt];
      TotalSizeAppend(queue[1..], pkt);
    }
  }

  const QUEUE_MAX := 10

  class LinkQueue {
    const max: nat
    var queue: seq<Packet>
    var size: int
    var dropped: nat

    /** `size` is the number of bytes waiting, and the queue never exceeds its limit. */
    ghost predicate Valid()
      reads this
    {
      size == TotalSize(queue) && |queue| <= max
    }

    /** A limit of zero, or none, means the default. */
    constructor (limit: nat)
      ensures Valid() && queue == [] && dropped == 0
      ensures (0 < limit ==> max == limit) && (limit == 0 ==> max == 10)
    {
      max := if limit == 0 then QUEUE_MAX else limit;
      queue, size, dropped := [], 0, 0;
    }

    method EnQ(pkt: Packet)
      requires Valid()
      modifies this
      ensures Valid()
      ensures queue == old(queue) + if |old(queue)| < max then [pkt] else []
      ensures dropped == old(dropped) + if |old(queue)| < max then 0 else 1
      ensures size == old(size) + if |old(queue)| < max then pkt.size else 0
    {
      if |queue| >= max {
        dropped := dropped + 1;
      } else {
        TotalSizeAppend(queue, pkt);
        queue := queue + [pkt];
        size := size + pkt.size;
      }
    }

    method Shift() returns (pkt: Packet)
      requires Valid() && queue != []
      modifies this
      ensures Valid() && [pkt] + queue == old(queue) && dropped == old(dropped) && size == old(size) - pkt.size
    {
      pkt := queue[0];
      queue := queue[1..];
      size := size - pkt.size;
    }
  }

  // ---------------------------------------------------------------- the queues of all links

  predicate OnLink(w: Waiting, from: int, to: int) { w.from == from && w.to == to }

  /** The packets of one link, oldest first. */
  ghost function QueueOf(ws: seq<Waiting>, from: int, to: int): seq<Packet> {
    if ws == [] then []
    else
      QueueOf(ws[..|ws| - 1], from, to) + if OnLink(ws[|ws| - 1], from, to) then [ws[|ws| - 1].pkt] else []
  }

  lemma {:induction false} QueueOfLength(ws: seq<Waiting>, from: int, to: int)
    ensures |QueueOf(ws, from, to)| == QueueLength(ws, from, to)
  {
    if ws == [] {
    } else {
      QueueOfLength(ws[..|ws| - 1], from, to);
    }
  }

  lemma QueueOfAppend(ws: seq<Waiting>, w: Waiting, from: int, to: int)
    ensures QueueOf(ws + [w], from, to) == QueueOf(ws, from, to) + if OnLink(w, from, to) then [w.pkt] else []
    ensures QueueLength(ws + [w], from, to) == QueueLength(ws, from, to) + if OnLink(w, from, to) then 1 else 0
  {
    assert (ws + [w])[..|ws|] == ws;
  }

  lemma {:induction false} NoneOnLink(ws: seq<Waiting>, from: int, to: int)
    requires forall j :: 0 <= j < |ws| ==> !OnLink(ws[j], from, to)
    ensures QueueOf(ws, from, to) == []
  {
    if ws == [] {
    } else {
      NoneOnLink(ws[..|ws| - 1], from, to);
    }
  }

  /** Without the oldest packet of a link its queue lacks the head, and the others are the same. */
  lemma {:induction false} QueueOfWithout(ws: seq<Waiting>, i: int, from: int, to: int)
    requires Oldest(ws, i)
    ensures QueueOf(ws, from, to)
         == (if OnLink(ws[i], from, to) then [ws[i].pkt] else []) + QueueOf(ws[..i] + ws[i + 1..], from, to)
  {
    var last := |ws| - 1;
    var init := ws[..last];
    if i == last {
      assert ws[..i] + ws[i + 1..] == init;
      if OnLink(ws[i], from, to) { NoneOnLink(init, from, to); }
    } else {
      QueueOfWithout(init, i, from, to);
      RemoveBeforeLast(ws, i, init, ws[..i] + ws[i + 1..]);
      QueueOfAppend(init[..i] + init[i + 1..], ws[last], from, to);
    }
  }

  lemma {:induction false} OnLinkQueued(ws: seq<Waiting>, j: int, from: int, to: int)
    requires 0 <= j < |ws| && OnLink(ws[j], from, to)
    ensures QueueOf(ws, from, to) != []
  {
    if j < |ws| - 1 { OnLinkQueued(ws[..|ws| - 1], j, from, to); }
  }

  /** A queue that is not empty has an oldest packet. */
  lemma {:induction false} OldestOf(ws: seq<Waiting>, from: int, to: int) returns (i: int)
    requires QueueOf(ws, from, to) != []
    ensures Oldest(ws, i) && OnLink(ws[i], from, to)
  {
    var last := |ws| - 1;
    if QueueOf(ws[..last], from, to) != [] {
      i := OldestOf(ws[..last], from, to);
    } else {
      i := last;
      forall j | 0 <= j < last ensures !OnLink(ws[j], from, to) {
        if OnLink(ws[j], from, to) { OnLinkQueued(ws[..last], j, from, to); }
      }
    }
  }

  /** The queues of all other links are the same. */
  ghost predicate SameElsewhere(ws: seq<Waiting>, ws': seq<Waiting>, from: int, to: int) {
    forall f, t :: f != from || t != to ==>
      QueueOf(ws', f, t) == QueueOf(ws, f, t) && QueueLength(ws', f, t) == QueueLength(ws, f, t)
  }

  lemma AppendElsewhere(ws: seq<Waiting>, w: Waiting)
    ensures SameElsewhere(ws, ws + [w], w.from, w.to) && SameElsewhere(ws, ws, w.from, w.to)
    ensures QueueOf(ws + [w], w.from, w.to) == QueueOf(ws, w.from, w.to) + [w.pkt]
    ensures QueueLength(ws + [w], w.from, w.to) == QueueLength(ws, w.from, w.to) + 1
  {
    forall f, t | f != w.from || t != w.to
      ensures QueueOf(ws + [w], f, t) == QueueOf(ws, f, t) && QueueLength(ws + [w], f, t) == QueueLength(ws, f, t)
    {
      QueueOfAppend(ws, w, f, t);
    }
    QueueOfAppend(ws, w, w.from, w.to);
  }

  /** A packet arrives at its queue, which has room for `max`. */
  lemma PutBoth(ws: seq<Waiting>, ds: seq<Waiting>, w: Waiting, max: nat) returns (ws': seq<Waiting>, ds': seq<Waiting>)
    ensures |QueueOf(ws, w.from, w.to)| == QueueLength(ws, w.from, w.to)
    ensures if QueueLength(ws, w.from, w.to) >= max then ws' == ws && ds' == ds + [w] else ws' == ws + [w] && ds' == ds
    ensures SameElsewhere(ws, ws', w.from, w.to) && SameElsewhere(ds, ds', w.from, w.to)
    ensures var full := QueueLength(ws, w.from, w.to) >= max;
      && QueueOf(ws', w.from, w.to) == QueueOf(ws, w.from, w.to) + (if full then [] else [w.pkt])
      && QueueLength(ds', w.from, w.to) == QueueLength(ds, w.from, w.to) + if full then 1 else 0
  {
    QueueOfLength(ws, w.from, w.to);
    AppendElsewhere(ws, w);
    AppendElsewhere(ds, w);
    var full := QueueLength(ws, w.from, w.to) >= max;
    ws', ds' := if full then ws else ws + [w], if full then ds + [w] else ds;
  }

  lemma WithoutElsewhere(ws: seq<Waiting>, i: int)
    requires Oldest(ws, i)
    ensures SameElsewhere(ws, ws[..i] + ws[i + 1..], ws[i].from, ws[i].to)
  {
    var rest := ws[..i] + ws[i + 1..];
    forall f, t | f != ws[i].from || t != ws[i].to
      ensures QueueOf(rest, f, t) == QueueOf(ws, f, t) && QueueLength(rest, f, t) == QueueLength(ws, f, t)
    {
      QueueOfWithout(ws, i, f, t);
      QueueOfLength(ws, f, t);
      QueueOfLength(rest, f, t);
    }
  }

  ghost function PacketsOf(ws: seq<Waiting>): (r: seq<Packet>)
    ensures |r| == |ws| && forall k :: 0 <= k < |r| ==> r[k] == ws[k].pkt
  {
    seq(|ws|, k requires 0 <= k < |ws| => ws[k].pkt)
  }

  lemma PacketsAppend(ws: seq<Waiting>, w: Waiting)
    ensures PacketsOf(ws + [w]) == PacketsOf(ws) + [w.pkt]
  {
  }

  // ---------------------------------------------------------------- the simulator's loop

  lemma {:induction false} LeadsAppend(net: Net, t: Traffic, es: seq<Event>, t1: Traffic, e: Event, t2: Traffic)
    requires NetOk(net) && Leads(net, t, es, t1) && Possible(net, t1, e) && Next(net, t1, e) == Some(t2)
    ensures Leads(net, t, es + [e], t2)
    decreases |es|
  {
    if es == [] {
      assert [e][1..] == [] && es + [e] == [e];
    } else {
      LeadsAppend(net, Next(net, t, es[0]).value, es[1..], t1, e, t2);
      assert (es + [e])[1..] == es[1..] + [e];
    }
  }

  ghost predicate NewQueue(q: LinkQueue, limit: nat)
    reads q
  {
    q.Valid() && q.queue == [] && q.dropped == 0 && q.max == if limit == 0 then 10 else limit
  }

  /** One empty queue object for each link. */
  ghost predicate Routes(g: Graph, limit: (int, int) -> nat, qs: map<(int, int), LinkQueue>, r: int, c: int)
    requires g.Shaped()
    reads qs.Values
  {
    && (forall from, to :: (from, to) in qs <==> g.Edge(from, to) && (from < r || (from == r && to < c)))
    && (forall k, l :: k in qs && l in qs && k != l ==> qs[k] != qs[l])
    && forall k :: k in qs ==> NewQueue(qs[k], limit(k.0, k.1))
  }

  lemma RouteAdded(g: Graph, limit: (int, int) -> nat, qs: map<(int, int), LinkQueue>, r: int, c: int, q: LinkQueue)
    requires g.Valid() && Routes(g, limit, qs, r, c) && g.Edge(r, c) && NewQueue(q, limit(r, c)) && q !in qs.Values
    ensures Routes(g, limit, qs[(r, c) := q], r, c + 1) && qs[(r, c) := q].Values <= qs.Values + {q}
  {
    var more := qs[(r, c) := q];
    forall k, l | k in more && l in more && k != l ensures more[k] != more[l] {
      if k == (r, c) {
        assert qs[l] in qs.Values;
      } else {
        assert qs[k] in qs.Values;
      }
    }
  }

  /** `addRoute` for the links of one router. */
  method AddRow(g: Graph, limit: (int, int) -> nat, r: int, before: map<(int, int), LinkQueue>)
    returns (qs: map<(int, int), LinkQueue>)
    requires g.Valid() && 0 <= r < g.n && Routes(g, limit, before, r, 0)
    ensures Routes(g, limit, qs, r + 1, 0) && fresh(qs.Values - before.Values)
  {
    qs := before;
    var c := 0;
    while c < g.n
      invariant 0 <= c <= g.n && Routes(g, limit, qs, r, c) && fresh(qs.Values - before.Values)
    {
      if g.link[r][c] {
        var q := new LinkQueue(limit(r, c));
        RouteAdded(g, limit, qs, r, c, q);
        qs := qs[(r, c) := q];
      }
      c := c + 1;
    }
  }

  /** `addRoute` for every link. */
  method AddRoutes(g: Graph, limit: (int, int) -> nat) returns (qs: map<(int, int), LinkQueue>)
    requires g.Valid()
    ensures Routes(g, limit, qs, g.n, 0) && fresh(qs.Values)
  {
    qs := map[];
    var r := 0;
    while r < g.n
      invariant 0 <= r <= g.n && Routes(g, limit, qs, r, 0) && fresh(qs.Values)
    {
      qs := AddRow(g, limit, r, qs);
      r := r + 1;
    }
  }

  lemma LeadsAcross(net: Net, t0: Traffic, es: seq<Event>, t: Traffic, i: int) returns (t': Traffic)
    requires NetOk(net) && Inv(net, t) && Leads(net, t0, es, t) && AllMoves(es) && Oldest(t.waiting, i)
    ensures Cross(net, t, i) == Some(t') && Inv(net, t')
    ensures Leads(net, t0, es + [Move(i)], t') && AllMoves(es + [Move(i)])
    ensures net.g.Node(t.waiting[i].to)
  {
    CrossKeeps(net, t, i);
    t' := Cross(net, t, i).value;
    LeadsAppend(net, t0, es, t, Move(i), t');
    assert OnCourse(net, t.waiting[i]);
  }

  class Simulator {
    const net: Net
    const queues: map<(int, int), LinkQueue>
    var delivered: seq<Packet>
    // all queues in order of arrival, the packets dropped at a full queue, and those for no known node
    ghost var waiting: seq<Waiting>
    ghost var drops: seq<Waiting>
    ghost var strays: seq<Packet>

    ghost function View(): Traffic
      reads this
    {
      Traffic(waiting, delivered, PacketsOf(drops), strays)
    }

    /** The queue object of the link holds what waits there, and has counted what was dropped there. */
    ghost predicate QueueOk(from: int, to: int)
      requires (from, to) in queues
      reads this, queues[(from, to)]
    {
      var q := queues[(from, to)];
      && q.Valid() && q.max == net.max(from, to)
      && q.queue == QueueOf(waiting, from, to) && q.dropped == QueueLength(drops, from, to)
    }

    /** There is one queue object for each link. */
    ghost predicate QueuesOk()
      reads this, queues.Values
    {
      && net.g.Shaped()
      && (forall from, to :: (from, to) in queues <==> net.g.Edge(from, to))
      && (forall k, l :: k in queues && l in queues && k != l ==> queues[k] != queues[l])
      && forall from, to :: (from, to) in queues ==> QueueOk(from, to)
    }

    ghost predicate Valid()
      reads this, queues.Values
    {
      NetOk(net) && QueuesOk()
    }

    constructor (net: Net, limit: (int, int) -> nat)
      requires NetOk(net)
      requires forall from, to :: net.max(from, to) == if limit(from, to) == 0 then 10 else limit(from, to)
      ensures Valid() && this.net == net && View() == QUIET && fresh(queues.Values)
      ensures forall from, to :: net.g.Edge(from, to) ==>
                (from, to) in queues && NewQueue(queues[(from, to)], limit(from, to))
    {
      this.net := net;
      var qs := AddRoutes(net.g, limit);
      queues := qs;
      delivered := [];
      waiting, drops, strays := [], [], [];
    }

    /** Put a packet into the queue of a link. */
    method Enqueue(from: int, to: int, p: Packet)
      requires QueuesOk() && (from, to) in queues
      modifies this`waiting, this`drops, queues[(from, to)]
      ensures QueuesOk()
      ensures var w := Waiting(from, to, p);
        if QueueLength(old(waiting), from, to) >= net.max(from, to)
        then drops == old(drops) + [w] && waiting == old(waiting)
        else waiting == old(waiting) + [w] && drops == old(drops)
    {
      var q := queues[(from, to)];
      assert QueueOk(from, to);
      ghost var ws, ds := PutBoth(waiting, drops, Waiting(from, to, p), q.max);
      q.EnQ(p);
      waiting, drops := ws, ds;
      assert QueueOk(from, to);
      forall f, t | (f, t) in queues && (f, t) != (from, to) ensures QueueOk(f, t) {
        assert old(QueueOk(f, t));
      }
    }

    /** `recv`: deliver, queue or drop; false when there is no queue for the destination. */
    method Recv(r: int, p: Packet) returns (alive: bool)
      requires Valid() && net.g.Node(r)
      modifies this, queues.Values
      ensures Valid()
      ensures alive == Receive(net, old(View()), r, p).Some?
      ensures View() == if alive then Receive(net, old(View()), r, p).value else old(View())
    {
      if p.dest.None? {
        strays := strays + [p];
        return true;
      }
      if p.dest.value == r {
        delivered := delivered + [p];
        return true;
      }
      var hop := Lookup(net, r, p.dest.value);
      if hop == -1 {
        return false;
      }
      assert EntryOk(net, r, p.dest.value);
      PacketsAppend(drops, Waiting(r, hop, p));
      Enqueue(r, hop, p);
      return true;
    }

    /** Take the oldest packet out of the queue of a link. */
    method Take(from: int, to: int) returns (p: Packet, ghost i: int)
      requires QueuesOk() && (from, to) in queues && queues[(from, to)].queue != []
      modifies this, queues[(from, to)]
      ensures QueuesOk()
      ensures Oldest(old(waiting), i) && old(waiting[i]) == Waiting(from, to, p)
      ensures View() == Without(old(View()), i)
    {
      ghost var before := waiting;
      assert QueueOk(from, to);
      i := OldestOf(before, from, to);
      QueueOfWithout(before, i, from, to);
      p := queues[(from, to)].Shift();
      waiting := before[..i] + before[i + 1..];
      WithoutElsewhere(before, i);
      forall f, t | (f, t) in queues ensures QueueOk(f, t) {
        assert old(QueueOk(f, t));
        QueueOfLength(drops, f, t);
        QueueOfLength(old(drops), f, t);
      }
    }

    /** The oldest packet of a link crosses it, after the events `es` that have led here from `t0`. */
    method CrossOne(from: int, to: int, ghost t0: Traffic, ghost es: seq<Event>) returns (ghost es': seq<Event>)
      requires Valid() && Inv(net, View()) && (from, to) in queues && queues[(from, to)].queue != []
      requires Leads(net, t0, es, View()) && AllMoves(es)
      modifies this, queues.Values
      ensures Valid() && Inv(net, View())
      ensures Leads(net, t0, es', View()) && AllMoves(es') && |es'| == |es| + 1
    {
      ghost var t := View();
      var p;
      ghost var i;
      p, i := Take(from, to);
      ghost var t' := LeadsAcross(net, t0, es, t, i);
      var alive := Recv(to, OneHopOn(p));
      assert View() == t';
      es' := es + [Move(i)];
    }

    /** The inner loop of `run`: up to `due` packets of one link cross it, and none of them kills the simulator. */
    method RunLink(from: int, to: int, due: nat) returns (ghost es: seq<Event>)
      requires Valid() && Inv(net, View()) && (from, to) in queues
      modifies this, queues.Values
      ensures Valid() && Inv(net, View()) && Leads(net, old(View()), es, View())
      ensures |es| <= due && AllMoves(es)
      ensures |es| < due ==> queues[(from, to)].queue == []
    {
      ghost var t0 := View();
      es := [];
      var n := 0;
      while n < due && queues[(from, to)].queue != []
        invariant n == |es| <= due && Valid() && Inv(net, View()) && AllMoves(es)
        invariant Leads(net, t0, es, View())
      {
        es := CrossOne(from, to, t0, es);
        n := n + 1;
      }
    }
  }
}
