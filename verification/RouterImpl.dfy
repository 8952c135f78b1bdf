/** Building every router's forwarding table: shortest paths, then a walk back over predecessors. */
module RouterImpl {
  import opened Graphs

  const INFINITY := 65535

  /** Members of `up` below `i`. */
  ghost function UpBelow(g: Graph, i: nat): set<int>
    requires |g.up| == g.n && i <= g.n
  {
    set k | 0 <= k < i && g.up[k]
  }

  ghost function Routers(g: Graph): set<int>
    requires |g.up| == g.n
  {
    UpBelow(g, g.n)
  }

  /** The fields of one run from `s`, as values; -1 stands for an undefined predecessor. */
  datatype Labels = Labels(distance: seq<int>, predecessor: seq<int>, done: set<int>)

  /** Every finite label is the length of a real walk, bounded by the number of finished routers. */
  ghost predicate Sound(g: Graph, s: int, l: Labels)
    requires g.Valid()
  {
    && |l.distance| == g.n && |l.predecessor| == g.n
    && g.Node(s) && l.distance[s] == 0
    && l.done <= Routers(g)
    && (forall v {:trigger l.distance[v]} :: g.Node(v) ==> 0 <= l.distance[v] <= INFINITY)
    && (forall v {:trigger l.distance[v]} :: g.Node(v) && l.distance[v] < INFINITY ==>
          l.distance[v] <= |l.done| && Reach(g, s, v, l.distance[v]))
    && (forall v :: v in l.done && l.distance[v] < INFINITY ==> l.distance[v] < |l.done|)
  }

  /** Finished routers have relaxed their links and are no farther than unfinished ones. */
  ghost predicate Relaxed(g: Graph, l: Labels)
    requires g.Valid() && |l.distance| == g.n
  {
    && (forall u, v :: u in l.done && g.Edge(u, v) ==> l.distance[v] <= l.distance[u] + 1)
    && (forall u, v :: u in l.done && g.Node(v) && v !in l.done && u in Routers(g) ==> l.distance[u] <= l.distance[v])
  }

  ghost predicate Linked(g: Graph, s: int, l: Labels, v: int)
    requires g.Valid() && |l.distance| == g.n && |l.predecessor| == g.n && 0 <= v < g.n
  {
    var u := l.predecessor[v];
    u in l.done && g.Edge(u, v) && l.distance[v] == l.distance[u] + 1
  }

  /** Every labelled router but the source was reached from a finished predecessor. */
  ghost predicate Pointed(g: Graph, s: int, l: Labels)
    requires g.Valid() && |l.distance| == g.n && |l.predecessor| == g.n
  {
    forall v :: g.Node(v) && v != s && l.distance[v] < INFINITY ==> Linked(g, s, l, v)
  }

  /** The labels after relaxing every link of `next` towards routers below `j`. */
  ghost predicate Step(g: Graph, l: Labels, next: int, j: int, l': Labels)
    requires g.Valid() && |l.distance| == g.n && |l.predecessor| == g.n && g.Node(next)
  {
    && |l'.distance| == g.n && |l'.predecessor| == g.n
    && l'.done == l.done
    && forall v :: 0 <= v < g.n ==>
         if v < j && g.Edge(next, v) && l.distance[v] > l.distance[next] + 1
         then l'.distance[v] == l.distance[next] + 1 && l'.predecessor[v] == next
         else l'.distance[v] == l.distance[v] && l'.predecessor[v] == l.predecessor[v]
  }

  ghost predicate Nearest(g: Graph, l: Labels, next: int)
    requires g.Valid() && |l.distance| == g.n
  {
    g.Node(next) && next !in l.done && forall v :: g.Node(v) && v !in l.done ==> l.distance[next] <= l.distance[v]
  }

  /** Finishing the nearest router never lowers the label of a finished one. */
  lemma FinishedStay(g: Graph, s: int, l: Labels, next: int, l': Labels, u: int)
    requires g.Valid() && Sound(g, s, l) && Relaxed(g, l) && Nearest(g, l, next) && Step(g, l, next, g.n, l')
    requires u in l.done || u == next
    ensures g.Node(u) && l'.distance[u] == l.distance[u] && l'.predecessor[u] == l.predecessor[u]
  {
    assert u in Routers(g) || u == next;
  }

  /** A lowered label is again the length of a walk: one hop more than the walk to `next`. */
  lemma LoweredLabel(g: Graph, s: int, l: Labels, next: int, v: int)
    requires g.Valid() && |Routers(g)| < INFINITY && Sound(g, s, l) && g.Node(next) && g.Edge(next, v)
    requires l.distance[next] + 1 < l.distance[v]
    ensures 0 <= l.distance[next] < |l.done| + 1 && l.distance[next] + 1 < INFINITY
    ensures Reach(g, s, v, l.distance[next] + 1)
  {
    ReachAppend(g, s, next, v, l.distance[next]);
  }

  lemma StepLabel(g: Graph, s: int, l: Labels, next: int, l': Labels, v: int)
    requires g.Valid() && |Routers(g)| < INFINITY
    requires Sound(g, s, l) && Nearest(g, l, next) && Step(g, l, next, g.n, l')
    requires g.Node(v)
    ensures 0 <= l'.distance[v] <= INFINITY
    ensures l'.distance[v] < INFINITY ==> l'.distance[v] <= |l.done| + 1 && Reach(g, s, v, l'.distance[v])
  {
    if l'.distance[v] != l.distance[v] { LoweredLabel(g, s, l, next, v); }
  }

  lemma StepSound(g: Graph, s: int, l: Labels, next: int, l': Labels)
    requires g.Valid() && |Routers(g)| < INFINITY
    requires Sound(g, s, l) && Relaxed(g, l) && Nearest(g, l, next) && Step(g, l, next, g.n, l')
    ensures Sound(g, s, l'.(done := l.done + {next}))
  {
    var done := l.done + {next};
    assert |done| == |l.done| + 1;
    assert next in Routers(g);
    forall v | g.Node(v)
      ensures 0 <= l'.distance[v] <= INFINITY
      ensures l'.distance[v] < INFINITY ==> l'.distance[v] <= |done| && Reach(g, s, v, l'.distance[v])
    {
      StepLabel(g, s, l, next, l', v);
    }
    forall v | v in done && l'.distance[v] < INFINITY ensures l'.distance[v] < |done| {
      FinishedStay(g, s, l, next, l', v);
    }
  }

  lemma SubsetSize(a: set<int>, b: set<int>)
    requires a <= b
    ensures |a| <= |b|
  {
    assert b == a + (b - a);
  }

  lemma StepRelaxed(g: Graph, s: int, l: Labels, next: int, l': Labels)
    requires g.Valid()
    requires Sound(g, s, l) && Relaxed(g, l) && Nearest(g, l, next) && Step(g, l, next, g.n, l')
    ensures Relaxed(g, l'.(done := l.done + {next}))
  {
    var r := l'.(done := l.done + {next});
    forall u, v | u in r.done && g.Edge(u, v) ensures r.distance[v] <= r.distance[u] + 1 {
      FinishedStay(g, s, l, next, l', u);
    }
    forall u, v | u in r.done && g.Node(v) && v !in r.done && u in Routers(g) ensures r.distance[u] <= r.distance[v] {
      FinishedStay(g, s, l, next, l', u);
      assert l.distance[next] <= l.distance[v];
      if u in l.done { assert l.distance[u] <= l.distance[next]; }
    }
  }

  lemma StepPointed(g: Graph, s: int, l: Labels, next: int, l': Labels)
    requires g.Valid()
    requires Sound(g, s, l) && Relaxed(g, l) && Pointed(g, s, l) && Nearest(g, l, next) && Step(g, l, next, g.n, l')
    ensures Pointed(g, s, l'.(done := l.done + {next}))
  {
    var r := l'.(done := l.done + {next});
    FinishedStay(g, s, l, next, l', next);
    forall v | g.Node(v) && v != s && r.distance[v] < INFINITY ensures Linked(g, s, r, v) {
      if r.distance[v] == l.distance[v] {
        assert Linked(g, s, l, v);
        FinishedStay(g, s, l, next, l', l.predecessor[v]);
      }
    }
  }

  // ---------------------------------------------------------------- what the labels mean in the end

  /** Labels that nothing can lower bound every walk. */
  lemma {:induction false} LabelBoundsWalks(g: Graph, s: int, l: Labels, v: int, k: nat)
    requires g.Valid() && Sound(g, s, l) && Relaxed(g, l) && l.done == Routers(g) && |Routers(g)| < INFINITY
    requires Reach(g, s, v, k)
    ensures g.Node(v) && l.distance[v] <= k && l.distance[v] < INFINITY
    decreases k
  {
    ReachIsNode(g, s, v, k);
    if k == 0 {
    } else {
      var u :| g.Edge(u, v) && Reach(g, s, u, k - 1);
      LabelBoundsWalks(g, s, l, u, k - 1);
      assert u in l.done && l.distance[u] < |l.done|;
      assert l.distance[v] <= l.distance[u] + 1;
    }
  }

  /** Each label is the hop distance, or INFINITY exactly when there is no walk at all. */
  ghost predicate Correct(g: Graph, s: int, distance: seq<int>)
    requires g.Valid() && |distance| == g.n
  {
    forall v {:trigger distance[v]} :: g.Node(v) ==>
      && 0 <= distance[v] <= INFINITY
      && (distance[v] < INFINITY ==> IsDist(g, s, v, distance[v]))
      && (distance[v] == INFINITY ==> forall k: nat :: !Reach(g, s, v, k))
  }

  lemma LabelsCorrect(g: Graph, s: int, l: Labels)
    requires g.Valid() && Sound(g, s, l) && Relaxed(g, l) && l.done == Routers(g) && |Routers(g)| < INFINITY
    ensures Correct(g, s, l.distance)
  {
    forall v, k: nat | g.Node(v) && Reach(g, s, v, k) ensures l.distance[v] <= k && l.distance[v] < INFINITY {
      LabelBoundsWalks(g, s, l, v, k);
    }
  }

  // ---------------------------------------------------------------- the computation

  ghost predicate Progress(g: Graph, s: int, l: Labels)
    requires g.Valid()
  {
    Sound(g, s, l) && Relaxed(g, l) && Pointed(g, s, l)
  }

  lemma StepProgress(g: Graph, s: int, l: Labels, next: int, l': Labels)
    requires g.Valid() && |Routers(g)| < INFINITY
    requires Progress(g, s, l) && Nearest(g, l, next) && Step(g, l, next, g.n, l')
    ensures Progress(g, s, l'.(done := l.done + {next}))
  {
    StepSound(g, s, l, next, l');
    StepRelaxed(g, s, l, next, l');
    StepPointed(g, s, l, next, l');
  }

  /** The predecessors of the labelled routers form a tree in which each hop away from `s` adds one to the label. */
  ghost predicate Tree(g: Graph, s: int, l: Labels)
    requires g.Valid()
  {
    && |l.distance| == g.n && |l.predecessor| == g.n && g.Node(s) && l.distance[s] == 0
    && forall v {:trigger l.predecessor[v]} :: g.Node(v) && v != s && l.distance[v] < INFINITY ==>
         && g.Edge(l.predecessor[v], v)
         && l.distance[v] == l.distance[l.predecessor[v]] + 1
         && 0 <= l.distance[l.predecessor[v]]
  }

  lemma LabelsMean(g: Graph, s: int, l: Labels)
    requires g.Valid() && Progress(g, s, l) && l.done == Routers(g) && |Routers(g)| < INFINITY
    ensures Correct(g, s, l.distance) && Tree(g, s, l)
  {
    LabelsCorrect(g, s, l);
    forall v | g.Node(v) && v != s && l.distance[v] < INFINITY
      ensures g.Edge(l.predecessor[v], v) && l.distance[v] == l.distance[l.predecessor[v]] + 1
    {
      assert Linked(g, s, l, v);
    }
  }

  // ---------------------------------------------------------------- the walk over predecessors

  /** Every predecessor, of this run or an earlier one, has a link to its router; -1 stands for none. */
  ghost predicate Backwards(g: Graph, predecessor: seq<int>)
    requires g.Valid()
  {
    |predecessor| == g.n && forall v :: 0 <= v < g.n ==> predecessor[v] == -1 || g.Edge(predecessor[v], v)
  }

  lemma StepBackwards(g: Graph, l: Labels, next: int, l': Labels)
    requires g.Valid() && |l.distance| == g.n && Backwards(g, l.predecessor)
    requires g.Node(next) && Step(g, l, next, g.n, l')
    ensures Backwards(g, l'.predecessor)
  {
  }

  lemma OneDone(g: Graph, s: int, l: Labels, next: int, l': Labels) returns (r: Labels)
    requires g.Valid() && |Routers(g)| < INFINITY && Progress(g, s, l) && Backwards(g, l.predecessor)
    requires Nearest(g, l, next) && Step(g, l, next, g.n, l')
    ensures r == l'.(done := l.done + {next}) && |r.done| == |l.done| + 1
    ensures Progress(g, s, r) && Backwards(g, r.predecessor)
  {
    r := l'.(done := l.done + {next});
    StepProgress(g, s, l, next, l');
    StepBackwards(g, l, next, l');
  }

  /** `k` predecessor steps lead from `v` to `s`. */
  ghost predicate BackTo(predecessor: seq<int>, s: int, v: int, k: nat)
    decreases k
  {
    if k == 0 then v == s else 0 <= v < |predecessor| && BackTo(predecessor, s, predecessor[v], k - 1)
  }

  /** Predecessor steps to `s` retrace a walk from `s`. */
  lemma {:induction false} BackRetraces(g: Graph, s: int, predecessor: seq<int>, v: int, k: nat)
    requires g.Valid() && Backwards(g, predecessor) && g.Node(s) && BackTo(predecessor, s, v, k)
    ensures Reach(g, s, v, k)
    decreases k
  {
    if k == 0 {
    } else {
      BackRetraces(g, s, predecessor, predecessor[v], k - 1);
      ReachIsNode(g, s, predecessor[v], k - 1);
      ReachAppend(g, s, predecessor[v], v, k - 1);
    }
  }

  lemma {:induction false} TreeLeadsBack(g: Graph, s: int, l: Labels, v: int, k: nat)
    requires g.Valid() && Tree(g, s, l) && g.Node(v) && l.distance[v] == k < INFINITY
    ensures BackTo(l.predecessor, s, v, k)
    decreases k
  {
    if k == 0 {
    } else {
      TreeLeadsBack(g, s, l, l.predecessor[v], k - 1);
    }
  }

  /** Some number of predecessor steps leads from `v` to `s`. */
  ghost predicate LeadsBack(predecessor: seq<int>, s: int, v: int) {
    exists k: nat :: BackTo(predecessor, s, v, k)
  }

  /** In every topology the walk back from `v` comes to `s` exactly if `v` is labelled, then in that many steps. */
  lemma BackWalkEnds(g: Graph, s: int, l: Labels, v: int)
    requires g.Valid() && Tree(g, s, l) && Correct(g, s, l.distance) && Backwards(g, l.predecessor) && g.Node(v)
    ensures LeadsBack(l.predecessor, s, v) <==> l.distance[v] < INFINITY
    ensures l.distance[v] < INFINITY ==> BackTo(l.predecessor, s, v, l.distance[v])
  {
    if l.distance[v] < INFINITY { TreeLeadsBack(g, s, l, v, l.distance[v]); }
    if k: nat :| BackTo(l.predecessor, s, v, k) { BackRetraces(g, s, l.predecessor, v, k); }
  }

  lemma AllLabelled(g: Graph, s: int, distance: seq<int>, v: int)
    requires g.Valid() && |distance| == g.n && Correct(g, s, distance) && ReachesAll(g, s) && g.Node(v)
    ensures distance[v] < INFINITY
  {
    assert Joined(g, s, v);
  }

  /** `start` lies on a shortest walk from `s` to `v`, `walked` hops before its end. */
  ghost predicate OnTheWay(g: Graph, s: int, l: Labels, start: int, v: int, walked: nat)
    requires g.Valid() && |l.distance| == g.n && |l.predecessor| == g.n
  {
    && g.Node(v) && g.Node(start) && start != s && 0 <= l.predecessor[start] < g.n
    && 0 <= l.distance[start] && l.distance[start] + walked == l.distance[v]
    && Reach(g, start, v, walked)
  }

  lemma BackStep(g: Graph, s: int, l: Labels, start: int, v: int, walked: nat)
    requires g.Valid() && Tree(g, s, l) && OnTheWay(g, s, l, start, v, walked)
    requires l.distance[v] < INFINITY && l.predecessor[start] != s
    ensures OnTheWay(g, s, l, l.predecessor[start], v, walked + 1)
  {
    ReachPrepend(g, l.predecessor[start], start, v, walked);
    assert g.Node(l.predecessor[start]) && g.Edge(l.predecessor[l.predecessor[start]], l.predecessor[start]);
  }

  lemma LastStep(g: Graph, s: int, l: Labels, start: int, v: int, walked: nat)
    requires g.Valid() && Tree(g, s, l) && OnTheWay(g, s, l, start, v, walked)
    requires l.distance[v] < INFINITY && l.predecessor[start] == s && IsDist(g, s, v, l.distance[v])
    ensures Nearer(g, s, start, v)
  {
    FirstStepNearer(g, s, start, v, walked);
  }

  lemma UpBelowNext(g: Graph, i: nat)
    requires g.Valid() && i < g.n && g.up[i]
    ensures |UpBelow(g, i + 1)| == |UpBelow(g, i)| + 1
    ensures |UpBelow(g, i)| < |Routers(g)|
  {
    assert UpBelow(g, i + 1) == UpBelow(g, i) + {i};
    SubsetSize(UpBelow(g, i + 1), Routers(g));
  }

  lemma SameSize(a: set<int>, b: set<int>)
    requires a <= b && |a| == |b|
    ensures a == b
  {
    assert b == a + (b - a);
  }

  class Network {
    const g: Graph
    const done: array<bool>
    const distance: array<int>
    const predecessor: array<int>
    const table: array2<int>

    ghost predicate Valid() {
      && g.Valid()
      && done.Length == distance.Length == predecessor.Length == g.n
      && table.Length0 == table.Length1 == g.n
      && distance != predecessor
    }

    constructor (g: Graph)
      requires g.Valid()
      ensures Valid() && this.g == g && fresh(done) && fresh(distance) && fresh(predecessor) && fresh(table)
      ensures Backwards(g, predecessor[..])
    {
      this.g := g;
      done := new bool[g.n](i => false);
      distance := new int[g.n](i => 0);
      predecessor := new int[g.n](i => -1);
      table := new int[g.n, g.n]((i, j) => -1);
    }

    ghost function Done(): set<int>
      requires Valid()
      reads done
    {
      set v | 0 <= v < g.n && g.up[v] && done[v]
    }

    ghost function View(): Labels
      requires Valid()
      reads done, distance, predecessor
    {
      Labels(distance[..], predecessor[..], Done())
    }

    method InitLabels(s: int)
      requires Valid() && g.Node(s)
      modifies done, distance
      ensures Done() == {} && Progress(g, s, View())
    {
      var v := 0;
      while v < g.n
        invariant 0 <= v <= g.n
        invariant forall k :: 0 <= k < v && g.up[k] ==> !done[k] && distance[k] == if k == s then 0 else INFINITY
      {
        if g.up[v] {
          done[v] := false;
          distance[v] := if v == s then 0 else INFINITY;
        }
        v := v + 1;
      }
      assert Done() == {};
      assert Reach(g, s, s, 0);
    }

    /** The unfinished router with the smallest label, the first one among equals. */
    method SelectNext(ghost s: int) returns (next: int)
      requires Valid() && Sound(g, s, View()) && Done() != Routers(g)
      ensures Nearest(g, View(), next)
    {
      ghost var open :| open in Routers(g) && open !in Done();
      next := -1;
      var min := INFINITY + 1;
      var v := 0;
      while v < g.n
        invariant 0 <= v <= g.n
        invariant next == -1 ==> min == INFINITY + 1 && forall k :: 0 <= k < v && g.up[k] ==> done[k]
        invariant next != -1 ==> 0 <= next < v && g.up[next] && !done[next] && min == distance[next] <= INFINITY
        invariant next != -1 ==> forall k :: 0 <= k < v && g.up[k] && !done[k] ==> distance[next] <= distance[k]
      {
        assert g.up[v] ==> g.Node(v);
        if g.up[v] && !done[v] && distance[v] < min {
          next := v;
          min := distance[v];
        }
        v := v + 1;
      }
    }

    method RelaxLinks(next: int)
      requires Valid() && g.Node(next)
      modifies distance, predecessor
      ensures Step(g, old(View()), next, g.n, View())
    {
      ghost var l := View();
      var v := 0;
      while v < g.n
        invariant 0 <= v <= g.n && distance[next] == l.distance[next]
        invariant Step(g, l, next, v, View())
      {
        if g.link[next][v] {
          var weight := distance[next] + 1;
          if distance[v] > weight {
            distance[v] := weight;
            predecessor[v] := next;
          }
        }
        v := v + 1;
      }
    }

    method Finish(next: int)
      requires Valid() && g.Node(next)
      modifies done
      ensures Done() == old(Done()) + {next}
    {
      done[next] := true;
    }

    /** Select, relax and finish one router. */
    method FinishOne(ghost s: int)
      requires Valid() && |Routers(g)| < INFINITY && Progress(g, s, View()) && Done() != Routers(g)
      requires Backwards(g, predecessor[..])
      modifies done, distance, predecessor
      ensures Progress(g, s, View()) && |Done()| == |old(Done())| + 1 && Backwards(g, predecessor[..])
    {
      ghost var l := View();
      var next := SelectNext(s);
      RelaxLinks(next);
      ghost var l' := View();
      ghost var r := OneDone(g, s, l, next, l');
      Finish(next);
      assert View() == r;
    }

    /** One turn of the outer loop, which runs over the routers that exist. */
    method Turn(ghost s: int, i: nat, ghost next: nat)
      requires Valid() && |Routers(g)| < INFINITY && i < g.n && next == i + 1
      requires Progress(g, s, View()) && |Done()| == |UpBelow(g, i)| && Backwards(g, predecessor[..])
      modifies done, distance, predecessor
      ensures Progress(g, s, View()) && |Done()| == |UpBelow(g, next)| && Backwards(g, predecessor[..])
    {
      if g.up[i] {
        UpBelowNext(g, i);
        FinishOne(s);
      } else {
        assert UpBelow(g, i + 1) == UpBelow(g, i);
      }
    }

    lemma AllDone(s: int)
      requires Valid() && Progress(g, s, View()) && |Done()| == |Routers(g)| < INFINITY
      ensures Correct(g, s, distance[..]) && Tree(g, s, View())
    {
      SameSize(Done(), Routers(g));
      LabelsMean(g, s, View());
    }

    /** The selection and relaxation loop, on every topology with fewer than INFINITY routers. */
    method ShortestPaths(s: int)
      requires Valid() && g.Node(s) && |Routers(g)| < 65535 && Backwards(g, predecessor[..])
      modifies done, distance, predecessor
      ensures Correct(g, s, distance[..]) && Tree(g, s, View()) && Backwards(g, predecessor[..])
    {
      InitLabels(s);
      var i := 0;
      while i < g.n
        invariant 0 <= i <= g.n && Progress(g, s, View()) && |Done()| == |UpBelow(g, i)|
        invariant Backwards(g, predecessor[..])
      {
        var next := i + 1;
        Turn(s, i, next);
        i := next;
      }
      AllDone(s);
    }

    /** Walk the predecessors of a labelled `v` back to the router that follows `s`. */
    method FirstHop(s: int, v: int) returns (start: int)
      requires Valid() && Tree(g, s, View()) && Correct(g, s, distance[..])
      requires g.Node(v) && v != s && distance[v] < INFINITY
      ensures Nearer(g, s, start, v)
    {
      ghost var l := View();
      assert IsDist(g, s, v, l.distance[v]);
      start := v;
      ghost var walked: nat := 0;
      while predecessor[start] != s
        invariant OnTheWay(g, s, l, start, v, walked)
        decreases l.distance[v] - walked
      {
        BackStep(g, s, l, start, v, walked);
        start := predecessor[start];
        walked := walked + 1;
      }
      LastStep(g, s, l, start, v, walked);
    }

    /** The first `i` entries of the row of `s`. */
    ghost predicate RowUpTo(s: int, i: nat)
      requires Valid() && g.Node(s) && i <= g.n
      reads table
    {
      forall d :: 0 <= d < i ==> if g.Node(d) && d != s then Nearer(g, s, table[s, d], d) else table[s, d] == -1
    }

    ghost predicate RowOk(s: int)
      requires Valid() && g.Node(s)
      reads table
    {
      RowUpTo(s, g.n)
    }

    ghost function Tables(): seq<seq<int>>
      requires Valid()
      reads table
    {
      seq(g.n, s requires 0 <= s < g.n reads table =>
        seq(g.n, d requires 0 <= d < g.n reads table => table[s, d]))
    }

    /** One entry: the first hop, or none for the router itself and for numbers that are no router. */
    method FillEntry(s: int, d: nat)
      requires Valid() && g.Node(s) && Tree(g, s, View()) && Correct(g, s, distance[..]) && ReachesAll(g, s)
      requires d < g.n
      modifies table
      ensures if g.Node(d) && d != s then Nearer(g, s, table[s, d], d) else table[s, d] == -1
      ensures forall r, k :: 0 <= r < g.n && 0 <= k < g.n && (r != s || k != d) ==> table[r, k] == old(table[r, k])
    {
      table[s, d] := -1;
      if g.up[d] && d != s {
        AllLabelled(g, s, distance[..], d);
        var start := FirstHop(s, d);
        table[s, d] := start;
      }
    }

    method FillRow(s: int)
      requires Valid() && g.Node(s) && Tree(g, s, View()) && Correct(g, s, distance[..]) && ReachesAll(g, s)
      modifies table
      ensures RowOk(s)
      ensures forall r, d :: 0 <= r < g.n && 0 <= d < g.n && r != s ==> table[r, d] == old(table[r, d])
    {
      var d := 0;
      while d < g.n
        invariant 0 <= d <= g.n && RowUpTo(s, d)
        invariant forall r, k :: 0 <= r < g.n && 0 <= k < g.n && r != s ==> table[r, k] == old(table[r, k])
      {
        FillEntry(s, d);
        d := d + 1;
      }
    }

    /** `createTable`: when every router can be reached each entry is a neighbour one hop nearer. */
    method CreateTable(s: int)
      requires Valid() && g.Node(s) && ReachesAll(g, s) && |Routers(g)| < 65535 && Backwards(g, predecessor[..])
      modifies done, distance, predecessor, table
      ensures RowOk(s) && Backwards(g, predecessor[..])
      ensures forall r, d :: 0 <= r < g.n && 0 <= d < g.n && r != s ==> table[r, d] == old(table[r, d])
    {
      ShortestPaths(s);
      FillRow(s);
    }

    /** The rows of the routers below `i`. */
    ghost predicate RowsUpTo(i: nat)
      requires Valid() && i <= g.n
      reads table
    {
      forall s :: 0 <= s < i && g.Node(s) ==> RowOk(s)
    }

    twostate lemma RowsKept(s: nat)
      requires Valid() && s < g.n && old(RowsUpTo(s)) && (g.Node(s) ==> RowOk(s))
      requires forall r, d :: 0 <= r < g.n && 0 <= d < g.n && r != s ==> table[r, d] == old(table[r, d])
      ensures RowsUpTo(s + 1)
    {
      forall r | 0 <= r < s && g.Node(r) ensures RowOk(r) { assert old(RowOk(r)); }
    }

    lemma RowsMakeTables()
      requires Valid() && RowsUpTo(g.n)
      ensures TablesOk(g, Tables())
    {
      forall s, d | g.Node(s) && 0 <= d < g.n
        ensures if g.Node(d) && d != s then Nearer(g, s, Tables()[s][d], d) else Tables()[s][d] == -1
      {
        assert RowOk(s);
      }
    }

    /** Every router builds its own table, on the shared labels left by the ones before it. */
    method CreateTables()
      requires Valid() && Connected(g) && |Routers(g)| < 65535 && Backwards(g, predecessor[..])
      modifies done, distance, predecessor, table
      ensures TablesOk(g, Tables())
    {
      var s := 0;
      while s < g.n
        invariant 0 <= s <= g.n && Backwards(g, predecessor[..]) && RowsUpTo(s)
      {
        label before:
        if g.up[s] {
          CreateTable(s);
        }
        RowsKept@before(s);
        s := s + 1;
      }
      RowsMakeTables();
    }
  }
}
