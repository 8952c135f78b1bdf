/** Router topologies and hop distances. */
module Graphs {

  /** Routers are numbered 0..n-1 with gaps; `link[u][v]` says that u has a queue towards v. */
  datatype Graph = Graph(n: nat, up: seq<bool>, link: seq<seq<bool>>) {
    predicate Node(v: int)
      requires |up| == n
    {
      0 <= v < n && up[v]
    }

    predicate Shaped() {
      |up| == n && |link| == n && forall u :: 0 <= u < n ==> |link[u]| == n
    }

    predicate Edge(u: int, v: int)
      requires Shaped()
    {
      0 <= u < n && 0 <= v < n && link[u][v]
    }

    ghost predicate Valid() {
      Shaped() && forall u, v :: Edge(u, v) ==> Node(u) && Node(v)
    }
  }

  /** Some walk of exactly `k` hops leads from `s` to `v`. */
  ghost predicate Reach(g: Graph, s: int, v: int, k: nat)
    requires g.Valid()
    decreases k
  {
    if k == 0 then s == v && g.Node(s)
    else exists u :: g.Edge(u, v) && Reach(g, s, u, k - 1)
  }

  ghost predicate IsDist(g: Graph, s: int, v: int, d: nat)
    requires g.Valid()
  {
    Reach(g, s, v, d) && forall k: nat :: k < d ==> !Reach(g, s, v, k)
  }

  ghost predicate Joined(g: Graph, s: int, v: int)
    requires g.Valid()
  {
    exists k: nat :: Reach(g, s, v, k)
  }

  /** Every router can be reached from `s`. */
  ghost predicate ReachesAll(g: Graph, s: int)
    requires g.Valid()
  {
    forall v :: g.Node(v) ==> Joined(g, s, v)
  }

  ghost predicate Connected(g: Graph)
    requires g.Valid()
  {
    forall s :: g.Node(s) ==> ReachesAll(g, s)
  }

  lemma {:induction false} ReachIsNode(g: Graph, s: int, v: int, k: nat)
    requires g.Valid() && Reach(g, s, v, k)
    ensures g.Node(s) && g.Node(v)
    decreases k
  {
    if k == 0 {
    } else {
      var u :| g.Edge(u, v) && Reach(g, s, u, k - 1);
      ReachIsNode(g, s, u, k - 1);
    }
  }

  /** A walk can be extended at its end. */
  lemma ReachAppend(g: Graph, s: int, u: int, v: int, k: nat)
    requires g.Valid() && Reach(g, s, u, k) && g.Edge(u, v)
    ensures Reach(g, s, v, k + 1)
  {
  }

  /** A walk can be extended at its beginning. */
  lemma {:induction false} ReachPrepend(g: Graph, u: int, s: int, v: int, k: nat)
    requires g.Valid() && g.Edge(u, s) && Reach(g, s, v, k)
    ensures Reach(g, u, v, k + 1)
    decreases k
  {
    if k == 0 {
      assert Reach(g, u, u, 0);
    } else {
      var x :| g.Edge(x, v) && Reach(g, s, x, k - 1);
      ReachPrepend(g, u, s, x, k - 1);
    }
  }

  lemma {:induction false} DistExists(g: Graph, s: int, v: int, k: nat) returns (d: nat)
    requires g.Valid() && Reach(g, s, v, k)
    ensures IsDist(g, s, v, d) && d <= k
    decreases k
  {
    if j: nat :| j < k && Reach(g, s, v, j) {
      d := DistExists(g, s, v, j);
    } else {
      d := k;
    }
  }

  lemma DistUnique(g: Graph, s: int, v: int, d: nat, e: nat)
    requires g.Valid() && IsDist(g, s, v, d) && IsDist(g, s, v, e)
    ensures d == e
  {
  }

  /** The hop distance in a connected topology. */
  ghost function Dist(g: Graph, s: int, v: int): (d: nat)
    requires g.Valid() && Connected(g) && g.Node(s) && g.Node(v)
    ensures IsDist(g, s, v, d)
  {
    assert ReachesAll(g, s) && Joined(g, s, v);
    var k: nat :| Reach(g, s, v, k);
    assert exists e: nat :: IsDist(g, s, v, e) by { var e := DistExists(g, s, v, k); }
    var d: nat :| IsDist(g, s, v, d);
    d
  }

  /** `hop` is a neighbour of `s` one step nearer to `v`. */
  ghost predicate Nearer(g: Graph, s: int, hop: int, v: int)
    requires g.Valid()
  {
    g.Edge(s, hop) && exists d: nat :: IsDist(g, hop, v, d) && IsDist(g, s, v, d + 1)
  }

  /** The first step of a shortest walk is a neighbour one step nearer. */
  lemma FirstStepNearer(g: Graph, s: int, hop: int, v: int, d: nat)
    requires g.Valid() && g.Edge(s, hop) && IsDist(g, s, v, d + 1) && Reach(g, hop, v, d)
    ensures Nearer(g, s, hop, v)
  {
    forall k: nat | k < d ensures !Reach(g, hop, v, k) {
      if Reach(g, hop, v, k) { ReachPrepend(g, s, hop, v, k); }
    }
    assert IsDist(g, hop, v, d);
  }

  lemma NearerDist(g: Graph, s: int, hop: int, v: int)
    requires g.Valid() && Connected(g) && g.Node(s) && g.Node(v) && Nearer(g, s, hop, v)
    ensures g.Edge(s, hop) && Dist(g, hop, v) + 1 == Dist(g, s, v)
  {
    var d: nat :| IsDist(g, hop, v, d) && IsDist(g, s, v, d + 1);
    DistUnique(g, hop, v, d, Dist(g, hop, v));
    DistUnique(g, s, v, d + 1, Dist(g, s, v));
  }

  lemma DistZero(g: Graph, s: int, v: int)
    requires g.Valid() && Connected(g) && g.Node(s) && g.Node(v)
    ensures Dist(g, s, v) == 0 <==> s == v
  {
    if s == v { assert Reach(g, s, v, 0); }
  }

  /** Every router's table: a nearer neighbour for each other router, -1 (no queue) for anything else. */
  ghost predicate TablesOk(g: Graph, tbl: seq<seq<int>>)
    requires g.Valid()
  {
    && |tbl| == g.n
    && (forall s :: 0 <= s < g.n ==> |tbl[s]| == g.n)
    && forall s, d :: g.Node(s) && 0 <= d < g.n ==>
         if g.Node(d) && d != s then Nearer(g, s, tbl[s][d], d) else tbl[s][d] == -1
  }
}
