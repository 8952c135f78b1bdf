/** The receive buffers: a newest-first list, one busy buffer for each peer and each chunk. */
module ReceiveBuffers {
  import opened FlowControl
  import opened Wire

  // ---------------------------------------------------------------- the list as a value

  predicate Clashes(b: Buffer, socket: int, offset: int) {
    b.busy && (b.socket == socket || b.offset == offset)
  }

  predicate Free(list: seq<Buffer>, socket: int, offset: int) {
    forall i :: 0 <= i < |list| ==> !Clashes(list[i], socket, offset)
  }

  ghost function AddBuffer(list: seq<Buffer>, n: int, socket: int, offset: int): seq<Buffer>
    requires 0 <= n
  {
    if Free(list, socket, offset) then [InitBuffer(n, socket, offset)] + list else list
  }

  ghost function Release(list: seq<Buffer>, offset: int): (r: seq<Buffer>)
    ensures |r| == |list|
    ensures forall i :: 0 <= i < |list| ==>
              r[i] == if list[i].offset == offset then list[i].(busy := false) else list[i]
  {
    seq(|list|, i requires 0 <= i < |list| => if list[i].offset == offset then list[i].(busy := false) else list[i])
  }

  /** Newest buffer of a peer, or the length of the list. */
  function BySocket(list: seq<Buffer>, socket: int): (i: nat)
    ensures i <= |list| && (i < |list| ==> list[i].socket == socket)
    ensures forall j :: 0 <= j < i ==> list[j].socket != socket
  {
    if list == [] || list[0].socket == socket then 0 else 1 + BySocket(list[1..], socket)
  }

  /** Newest buffer of a chunk, or the length of the list. */
  function ByOffset(list: seq<Buffer>, offset: int): (i: nat)
    ensures i <= |list| && (i < |list| ==> list[i].offset == offset)
    ensures forall j :: 0 <= j < i ==> list[j].offset != offset
  {
    if list == [] || list[0].offset == offset then 0 else 1 + ByOffset(list[1..], offset)
  }

  /** A DATA packet from `socket` goes to that peer's newest buffer. */
  ghost function ReceiveFrom(list: seq<Buffer>, socket: int, packet: Packet): seq<Buffer>
    requires 1 <= packet.seqNum && forall b :: b in list ==> 0 <= b.expected
  {
    var i := BySocket(list, socket);
    if i < |list| then list[i := Receive(list[i], packet).0] else list
  }

  predicate IsFull(list: seq<Buffer>, offset: int, size: int) {
    && ByOffset(list, offset) < |list|
    && forall i :: 0 <= i < |list| && list[i].offset == offset ==> list[i].total == size
  }

  function CopyPiece(list: seq<Buffer>, offset: int, pos: int): seq<byte> {
    var i := ByOffset(list, offset);
    if i < |list| && 0 <= pos < |list[i].pieces| && list[i].pieces[pos].Stored? then list[i].pieces[pos].data else []
  }

  // ---------------------------------------------------------------- the list refines a map

  /** A busy buffer is newer than every other buffer of its peer or its chunk. */
  ghost predicate BusyIsNewest(list: seq<Buffer>) {
    forall i, j :: 0 <= j < i < |list| && list[i].busy ==>
      list[j].socket != list[i].socket && list[j].offset != list[i].offset
  }

  /** Which chunk each peer is sending. */
  ghost function Assigned(list: seq<Buffer>): map<int, int> {
    if list == [] then map[]
    else if list[0].busy then Assigned(list[1..])[list[0].socket := list[0].offset]
    else Assigned(list[1..])
  }

  ghost predicate BusyAt(list: seq<Buffer>, i: int, socket: int, offset: int) {
    0 <= i < |list| && list[i].busy && list[i].socket == socket && list[i].offset == offset
  }

  ghost predicate AssignedAs(list: seq<Buffer>, socket: int, offset: int) {
    exists i :: BusyAt(list, i, socket, offset)
  }

  /** The map holds exactly the pairs of the busy buffers. */
  lemma {:induction false} AssignedIs(list: seq<Buffer>)
    requires BusyIsNewest(list)
    ensures forall s, o :: AssignedAs(list, s, o) ==> s in Assigned(list) && Assigned(list)[s] == o
    ensures forall s :: s in Assigned(list) ==> AssignedAs(list, s, Assigned(list)[s])
  {
    if list == [] {
    } else {
      var rest := list[1..];
      assert forall i :: 0 <= i < |rest| ==> rest[i] == list[i + 1];
      AssignedIs(rest);
      forall s, o | AssignedAs(list, s, o) ensures s in Assigned(list) && Assigned(list)[s] == o {
        var i :| BusyAt(list, i, s, o);
        if i > 0 {
          assert BusyAt(rest, i - 1, s, o) && AssignedAs(rest, s, o);
          assert list[0].socket != list[i].socket;
        }
      }
      forall s | s in Assigned(list) ensures AssignedAs(list, s, Assigned(list)[s]) {
        if list[0].busy && list[0].socket == s {
          assert BusyAt(list, 0, s, Assigned(list)[s]);
        } else {
          assert s in Assigned(rest) && AssignedAs(rest, s, Assigned(rest)[s]);
          var i :| BusyAt(rest, i, s, Assigned(rest)[s]);
          assert BusyAt(list, i + 1, s, Assigned(list)[s]);
        }
      }
    }
  }

  /** Peers and chunks are matched one to one. */
  lemma Matching(list: seq<Buffer>)
    requires BusyIsNewest(list)
    ensures var m := Assigned(list); forall s, t :: s in m && t in m && s != t ==> m[s] != m[t]
  {
    AssignedIs(list);
    var m := Assigned(list);
    forall s, t | s in m && t in m && s != t ensures m[s] != m[t] {
      var i :| BusyAt(list, i, s, m[s]);
      var j :| BusyAt(list, j, t, m[t]);
      assert i < j || j < i;
    }
  }

  /** The newest-first searches find the busy buffer whenever there is one. */
  lemma SearchFindsBusy(list: seq<Buffer>, socket: int)
    requires BusyIsNewest(list) && socket in Assigned(list)
    ensures var i := BySocket(list, socket);
      i < |list| && list[i].busy && list[i].offset == Assigned(list)[socket] && ByOffset(list, list[i].offset) == i
  {
    AssignedIs(list);
    var k :| BusyAt(list, k, socket, Assigned(list)[socket]);
    assert BySocket(list, socket) == k;
    assert ByOffset(list, list[k].offset) == k;
  }

  lemma FreeMeansUnassigned(list: seq<Buffer>, socket: int, offset: int)
    requires BusyIsNewest(list)
    ensures var m := Assigned(list);
      Free(list, socket, offset) <==> socket !in m && forall s :: s in m ==> m[s] != offset
  {
    AssignedIs(list);
    if !Free(list, socket, offset) {
      var i :| 0 <= i < |list| && Clashes(list[i], socket, offset);
      assert BusyAt(list, i, list[i].socket, list[i].offset) && AssignedAs(list, list[i].socket, list[i].offset);
    } else {
      forall s | s in Assigned(list) ensures s != socket && Assigned(list)[s] != offset {
        var i :| BusyAt(list, i, s, Assigned(list)[s]);
        assert !Clashes(list[i], socket, offset);
      }
    }
  }

  /** Allocation adds a pair exactly when neither the peer nor the chunk is taken. */
  lemma AddRefines(list: seq<Buffer>, n: int, socket: int, offset: int)
    requires BusyIsNewest(list) && 0 <= n
    ensures var r := AddBuffer(list, n, socket, offset); var m := Assigned(list);
      && BusyIsNewest(r)
      && Assigned(r) == if socket !in m && (forall s :: s in m ==> m[s] != offset) then m[socket := offset] else m
  {
    FreeMeansUnassigned(list, socket, offset);
    if Free(list, socket, offset) {
      var r := AddBuffer(list, n, socket, offset);
      assert r[1..] == list;
      forall i, j | 0 <= j < i < |r| && r[i].busy ensures r[j].socket != r[i].socket && r[j].offset != r[i].offset {
        assert r[i] == list[i - 1] && !Clashes(list[i - 1], socket, offset);
        if j > 0 { assert r[j] == list[j - 1]; }
      }
    }
  }

  lemma MapFromPairs(r: seq<Buffer>, m: map<int, int>, offset: int)
    requires BusyIsNewest(r)
    requires forall s, o :: AssignedAs(r, s, o) <==> s in m && m[s] == o && o != offset
    ensures Assigned(r) == map s | s in m && m[s] != offset :: m[s]
  {
    AssignedIs(r);
    var q := Assigned(r);
    var expected := map s | s in m && m[s] != offset :: m[s];
    forall s ensures s in q <==> s in expected {
      if s in q { assert AssignedAs(r, s, q[s]); }
      if s in expected { assert AssignedAs(r, s, m[s]); }
    }
    forall s | s in q ensures q[s] == expected[s] { assert AssignedAs(r, s, q[s]); }
  }

  /** Releasing a chunk removes its pair and no other. */
  lemma ReleaseRefines(list: seq<Buffer>, offset: int)
    requires BusyIsNewest(list)
    ensures BusyIsNewest(Release(list, offset))
    ensures var m := Assigned(list); Assigned(Release(list, offset)) == map s | s in m && m[s] != offset :: m[s]
  {
    var r := Release(list, offset);
    AssignedIs(list);
    forall s, o ensures AssignedAs(r, s, o) <==> AssignedAs(list, s, o) && o != offset {
      if AssignedAs(r, s, o) {
        var i :| BusyAt(r, i, s, o);
        assert BusyAt(list, i, s, o);
      }
      if AssignedAs(list, s, o) && o != offset {
        var i :| BusyAt(list, i, s, o);
        assert BusyAt(r, i, s, o);
      }
    }
    MapFromPairs(r, Assigned(list), offset);
  }

  lemma {:induction false} SamePairs(list: seq<Buffer>, r: seq<Buffer>)
    requires |list| == |r|
    requires forall i :: 0 <= i < |list| ==>
      r[i].busy == list[i].busy && r[i].socket == list[i].socket && r[i].offset == list[i].offset
    ensures Assigned(list) == Assigned(r)
  {
    if list == [] {
    } else {
      SamePairs(list[1..], r[1..]);
    }
  }

  lemma ReceiveRefines(list: seq<Buffer>, socket: int, packet: Packet)
    requires BusyIsNewest(list) && 1 <= packet.seqNum && forall b :: b in list ==> 0 <= b.expected
    ensures BusyIsNewest(ReceiveFrom(list, socket, packet))
    ensures Assigned(ReceiveFrom(list, socket, packet)) == Assigned(list)
  {
    var r := ReceiveFrom(list, socket, packet);
    assert forall i :: 0 <= i < |list| ==>
      r[i].busy == list[i].busy && r[i].socket == list[i].socket && r[i].offset == list[i].offset;
    SamePairs(list, r);
  }

  // ---------------------------------------------------------------- every history of the list

  datatype Operation =
    | Allocate(socket: int, offset: int)
    | Vacate(offset: int)
    | Deliver(socket: int, packet: Packet)

  ghost predicate Ready(list: seq<Buffer>) { forall b :: b in list ==> 0 <= b.expected }

  ghost function OnList(list: seq<Buffer>, n: int, op: Operation): seq<Buffer>
    requires 0 <= n && Ready(list)
  {
    match op
    case Allocate(socket, offset) => AddBuffer(list, n, socket, offset)
    case Vacate(offset) => Release(list, offset)
    case Deliver(socket, packet) => if 1 <= packet.seqNum then ReceiveFrom(list, socket, packet) else list
  }

  /** The same operation on a map from peers to chunks. */
  ghost function OnMap(m: map<int, int>, op: Operation): map<int, int> {
    match op
    case Allocate(socket, offset) =>
      if socket !in m && (forall s :: s in m ==> m[s] != offset) then m[socket := offset] else m
    case Vacate(offset) => map s | s in m && m[s] != offset :: m[s]
    case Deliver(_, _) => m
  }

  lemma OperationRefines(list: seq<Buffer>, n: int, op: Operation)
    requires 0 <= n && Ready(list) && BusyIsNewest(list)
    ensures var r := OnList(list, n, op); Ready(r) && BusyIsNewest(r) && Assigned(r) == OnMap(Assigned(list), op)
  {
    match op
    case Allocate(socket, offset) => AddRefines(list, n, socket, offset);
    case Vacate(offset) => ReleaseRefines(list, offset);
    case Deliver(socket, packet) =>
      if 1 <= packet.seqNum { ReceiveRefines(list, socket, packet); }
  }

  ghost predicate ListRun(list: seq<Buffer>, n: int, ops: seq<Operation>, r: seq<Buffer>)
    requires 0 <= n
    decreases |ops|
  {
    if ops == [] then r == list else Ready(list) && ListRun(OnList(list, n, ops[0]), n, ops[1..], r)
  }

  ghost function MapRun(m: map<int, int>, ops: seq<Operation>): map<int, int>
    decreases |ops|
  {
    if ops == [] then m else MapRun(OnMap(m, ops[0]), ops[1..])
  }

  lemma {:induction false} RunRefines(list: seq<Buffer>, n: int, ops: seq<Operation>, r: seq<Buffer>)
    requires 0 <= n && Ready(list) && BusyIsNewest(list) && ListRun(list, n, ops, r)
    ensures Ready(r) && BusyIsNewest(r) && Assigned(r) == MapRun(Assigned(list), ops)
    decreases |ops|
  {
    if ops == [] {
    } else {
      OperationRefines(list, n, ops[0]);
      RunRefines(OnList(list, n, ops[0]), n, ops[1..], r);
    }
  }

  /** After any history the buffers in use are a one-to-one assignment that the searches find. */
  lemma ListRefinesMap(n: int, ops: seq<Operation>, r: seq<Buffer>)
    requires 0 <= n && ListRun([], n, ops, r)
    ensures BusyIsNewest(r) && Assigned(r) == MapRun(map[], ops)
    ensures var m := MapRun(map[], ops);
      && (forall s, t :: s in m && t in m && s != t ==> m[s] != m[t])
      && forall s :: s in m ==>
           BySocket(r, s) < |r| && r[BySocket(r, s)].busy && r[BySocket(r, s)].offset == m[s]
  {
    RunRefines([], n, ops, r);
    Matching(r);
    forall s | s in Assigned(r)
      ensures BySocket(r, s) < |r| && r[BySocket(r, s)].busy && r[BySocket(r, s)].offset == Assigned(r)[s]
    {
      SearchFindsBusy(r, s);
    }
  }

  // ---------------------------------------------------------------- IHAVE

  /** One GET for each offered chunk that gets a buffer; -1 is a hash not in the master file. */
  ghost function AnswerIhave(list: seq<Buffer>, n: int, socket: int, offers: seq<int>): (seq<Buffer>, seq<int>)
    requires 0 <= n
    decreases |offers|
  {
    if offers == [] then (list, [])
    else if offers[0] == -1 || !Free(list, socket, offers[0]) then AnswerIhave(list, n, socket, offers[1..])
    else
      var (list', gets) := AnswerIhave(AddBuffer(list, n, socket, offers[0]), n, socket, offers[1..]);
      (list', gets + [offers[0]])
  }

  /** Index of the first offer whose chunk is known and not being fetched. */
  ghost function FirstWanted(m: map<int, int>, offers: seq<int>): (k: nat)
    ensures k <= |offers|
    ensures k < |offers| ==> offers[k] != -1 && offers[k] !in m.Values
    ensures forall j :: 0 <= j < k ==> offers[j] == -1 || offers[j] in m.Values
  {
    if offers == [] || (offers[0] != -1 && offers[0] !in m.Values) then 0 else 1 + FirstWanted(m, offers[1..])
  }

  lemma TakenPeerGetsNothing(list: seq<Buffer>, n: int, socket: int, offers: seq<int>)
    requires 0 <= n && exists i :: 0 <= i < |list| && list[i].busy && list[i].socket == socket
    ensures AnswerIhave(list, n, socket, offers) == (list, [])
    decreases |offers|
  {
    if offers == [] {
    } else {
      var i :| 0 <= i < |list| && list[i].busy && list[i].socket == socket;
      assert Clashes(list[i], socket, offers[0]);
      TakenPeerGetsNothing(list, n, socket, offers[1..]);
    }
  }

  /** An IHAVE yields at most one GET: for the first wanted chunk, when the peer is idle. */
  lemma {:induction false} OneGetPerIhave(list: seq<Buffer>, n: int, socket: int, offers: seq<int>)
    requires BusyIsNewest(list) && 0 <= n
    ensures var m := Assigned(list); var k := FirstWanted(m, offers);
      var (list', gets) := AnswerIhave(list, n, socket, offers);
      if socket in m || k == |offers| then list' == list && gets == []
      else BusyIsNewest(list') && gets == [offers[k]] && Assigned(list') == m[socket := offers[k]]
    decreases |offers|
  {
    var m := Assigned(list);
    AssignedIs(list);
    if socket in m {
      var i :| BusyAt(list, i, socket, m[socket]);
      TakenPeerGetsNothing(list, n, socket, offers);
    } else if offers != [] {
      FreeMeansUnassigned(list, socket, offers[0]);
      if offers[0] == -1 || !Free(list, socket, offers[0]) {
        OneGetPerIhave(list, n, socket, offers[1..]);
      } else {
        AddRefines(list, n, socket, offers[0]);
        var list1 := AddBuffer(list, n, socket, offers[0]);
        assert list1[0].busy && list1[0].socket == socket;
        TakenPeerGetsNothing(list1, n, socket, offers[1..]);
      }
    }
  }
}
