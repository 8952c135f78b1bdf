/**
 * A transfer's packets delivered into the list of all receive buffers, with the program's other uses of that list in
 * between: the chunk's buffer is the transfer's receiver, and the other buffers are left alone.
 */
module Deliveries {
  import opened FlowControl
  import opened ReceiveBuffers
  import opened TransferIntegrity
  import opened TransferSafety
  import opened TransferSystem
  import opened Wire

  // ---------------------------------------------------------------- one packet

  ghost predicate AllPresent(pieces: seq<Piece>) { forall i :: 0 <= i < |pieces| ==> pieces[i].Stored? }

  /** `b` as the buffer of another peer and chunk. */
  function Placed(b: Buffer, socket: int, offset: int, busy: bool): Buffer {
    b.(socket := socket, offset := offset, busy := busy)
  }

  lemma ReceivePlaced(b: Buffer, packet: Packet, socket: int, offset: int, busy: bool)
    requires 1 <= packet.seqNum && 0 <= b.expected
    ensures Receive(Placed(b, socket, offset, busy), packet)
         == (Placed(Receive(b, packet).0, socket, offset, busy), Receive(b, packet).1)
  {
  }

  /** A buffer that holds everything does not change. */
  lemma ReceiveWhenFull(b: Buffer, packet: Packet)
    requires 1 <= packet.seqNum && AllPresent(b.pieces) && b.expected == |b.pieces|
    ensures Receive(b, packet).0 == b
  {
  }

  /** A packet changes the peer's busy buffer and no other. */
  lemma DeliveredTo(list: seq<Buffer>, i: int, packet: Packet)
    requires BusyIsNewest(list) && Ready(list) && 0 <= i < |list| && list[i].busy && 1 <= packet.seqNum
    ensures ReceiveFrom(list, list[i].socket, packet) == list[i := Receive(list[i], packet).0]
  {
    var j := BySocket(list, list[i].socket);
    assert !(i < j) && !(j < i);
  }

  // ---------------------------------------------------------------- one transfer among other uses of the list

  /** An event of the transfer, or some other use of the list. */
  datatype Happening = Own(event: Event) | Other(op: Operation)

  datatype Scene = Scene(list: seq<Buffer>, world: World)

  /**
   * Until the transfer has brought every piece, its peer sends nothing else and the chunk is not released; a chunk
   * gets no second buffer.
   */
  ghost predicate MayHappen(c: Chunk, sc: Scene, socket: int, offset: int, h: Happening) {
    match h
    case Own(e) => Enabled(c, sc.world, e)
    case Other(Allocate(s, o)) => o == offset ==> !Free(sc.list, s, o)
    case Other(Vacate(o)) => o == offset ==> AllPresent(sc.world.rcv.pieces)
    case Other(Deliver(s, _)) => s == socket ==> AllPresent(sc.world.rcv.pieces)
  }

  ghost function Happens(c: Chunk, sc: Scene, socket: int, offset: int, h: Happening): Scene
    requires c.Valid() && Ready(sc.list) && MayHappen(c, sc, socket, offset, h)
  {
    match h
    case Own(e) =>
      Scene(if e.DeliverData? then OnList(sc.list, c.n, Deliver(socket, e.packet)) else sc.list, Step(c, sc.world, e))
    case Other(op) => Scene(OnList(sc.list, c.n, op), sc.world)
  }

  /** The chunk's only buffer, at `i`, holds what the transfer's receiver holds, and is busy until it is complete. */
  ghost predicate TracksAt(c: Chunk, sc: Scene, socket: int, offset: int, i: int)
    requires c.Valid()
  {
    && BusyIsNewest(sc.list) && Ready(sc.list) && Faithful(c, sc.world)
    && 0 <= i < |sc.list| && sc.list[i] == Placed(sc.world.rcv, socket, offset, sc.list[i].busy)
    && (forall j :: 0 <= j < |sc.list| && sc.list[j].offset == offset ==> j == i)
    && (sc.list[i].busy || AllPresent(sc.world.rcv.pieces))
  }

  lemma FullExpects(c: Chunk, b: Buffer)
    requires c.Valid() && ReceiverOk(c, b, c.n - 1) && AllPresent(b.pieces)
    ensures b.expected == |b.pieces|
  {
  }

  /** Nothing a peer sends changes a buffer that holds everything. */
  lemma FullStays(c: Chunk, sc: Scene, socket: int, offset: int, i: int, s: int, packet: Packet)
    requires c.Valid() && TracksAt(c, sc, socket, offset, i) && AllPresent(sc.world.rcv.pieces)
    requires 1 <= packet.seqNum
    ensures var r := ReceiveFrom(sc.list, s, packet);
      |r| == |sc.list| && r[i] == sc.list[i] && forall j :: 0 <= j < |r| ==> r[j].offset == sc.list[j].offset
  {
    FullExpects(c, sc.world.rcv);
    ReceiveWhenFull(sc.list[i], packet);
  }

  lemma OwnDataTracks(c: Chunk, sc: Scene, socket: int, offset: int, i: int, packet: Packet)
    requires c.Valid() && TracksAt(c, sc, socket, offset, i) && Enabled(c, sc.world, DeliverData(packet))
    ensures TracksAt(c, Happens(c, sc, socket, offset, Own(DeliverData(packet))), socket, offset, i)
  {
    OperationRefines(sc.list, c.n, Deliver(socket, packet));
    StepFaithful(c, sc.world, DeliverData(packet));
    ReceivePlaced(sc.world.rcv, packet, socket, offset, sc.list[i].busy);
    if sc.list[i].busy {
      DeliveredTo(sc.list, i, packet);
    } else {
      FullStays(c, sc, socket, offset, i, socket, packet);
      FullExpects(c, sc.world.rcv);
      ReceiveWhenFull(sc.world.rcv, packet);
    }
  }

  lemma OtherTracks(c: Chunk, sc: Scene, socket: int, offset: int, i: int, op: Operation) returns (i': int)
    requires c.Valid() && TracksAt(c, sc, socket, offset, i) && MayHappen(c, sc, socket, offset, Other(op))
    ensures TracksAt(c, Happens(c, sc, socket, offset, Other(op)), socket, offset, i')
  {
    OperationRefines(sc.list, c.n, op);
    i' := i;
    match op
    case Allocate(s, o) =>
      if Free(sc.list, s, o) { i' := i + 1; }
    case Vacate(o) =>
    case Deliver(s, packet) =>
      if 1 <= packet.seqNum && AllPresent(sc.world.rcv.pieces) { FullStays(c, sc, socket, offset, i, s, packet); }
  }

  lemma HappeningTracks(c: Chunk, sc: Scene, socket: int, offset: int, i: int, h: Happening) returns (i': int)
    requires c.Valid() && TracksAt(c, sc, socket, offset, i) && MayHappen(c, sc, socket, offset, h)
    ensures TracksAt(c, Happens(c, sc, socket, offset, h), socket, offset, i')
  {
    match h
    case Own(e) =>
      i' := i;
      if e.DeliverData? {
        OwnDataTracks(c, sc, socket, offset, i, e.packet);
      } else {
        StepFaithful(c, sc.world, e);
      }
    case Other(op) => i' := OtherTracks(c, sc, socket, offset, i, op);
  }

  // ---------------------------------------------------------------- every history

  ghost predicate Leads(c: Chunk, sc: Scene, socket: int, offset: int, hs: seq<Happening>, end: Scene)
    requires c.Valid()
    decreases |hs|
  {
    if hs == [] then end == sc
    else
      && Ready(sc.list) && MayHappen(c, sc, socket, offset, hs[0])
      && Leads(c, Happens(c, sc, socket, offset, hs[0]), socket, offset, hs[1..], end)
  }

  /** The transfer's own events. */
  ghost function Events(hs: seq<Happening>): seq<Event> {
    if hs == [] then [] else (if hs[0].Own? then [hs[0].event] else []) + Events(hs[1..])
  }

  lemma {:induction false} HistoryTracks(c: Chunk, sc: Scene, socket: int, offset: int, i: int, hs: seq<Happening>,
                                         end: Scene) returns (i': int)
    requires c.Valid() && TracksAt(c, sc, socket, offset, i) && Leads(c, sc, socket, offset, hs, end)
    ensures TracksAt(c, end, socket, offset, i')
    ensures CanRun(c, sc.world, Events(hs)) && Run(c, sc.world, Events(hs)) == end.world
    decreases |hs|
  {
    if hs == [] {
      i' := i;
    } else {
      i' := HappeningTracks(c, sc, socket, offset, i, hs[0]);
      var next := Happens(c, sc, socket, offset, hs[0]);
      i' := HistoryTracks(c, next, socket, offset, i', hs[1..], end);
      if hs[0].Own? {
        var es := Cons(c, sc.world, hs[0].event, Events(hs[1..]));
      } else {
        assert [] + Events(hs[1..]) == Events(hs[1..]);
      }
    }
  }

  /** A chunk nobody has asked for gets a buffer when peer and chunk are free, and the sender answers the GET. */
  ghost predicate Begins(c: Chunk, list: seq<Buffer>, socket: int, offset: int) {
    && BusyIsNewest(list) && Ready(list) && Free(list, socket, offset)
    && forall j :: 0 <= j < |list| ==> list[j].offset != offset
  }

  ghost predicate Outcome(c: Chunk, list: seq<Buffer>, socket: int, offset: int, prev: int, count: int,
                          hs: seq<Happening>, end: Scene)
    requires c.Valid()
  {
    && Begins(c, list, socket, offset)
    && Leads(c, Scene(AddBuffer(list, c.n, socket, offset), Init(c, prev, count)), socket, offset, hs, end)
  }

  lemma BeginsTracks(c: Chunk, list: seq<Buffer>, socket: int, offset: int, prev: int, count: int)
    requires c.Valid() && Begins(c, list, socket, offset)
    ensures TracksAt(c, Scene(AddBuffer(list, c.n, socket, offset), Init(c, prev, count)), socket, offset, 0)
  {
    OperationRefines(list, c.n, Allocate(socket, offset));
    InitFaithful(c, prev, count);
    InitWorld(c, prev, count);
  }

  /** `b` is the buffer of a receiver in state `w`. */
  predicate Holds(b: Buffer, w: World) {
    b.pieces == w.rcv.pieces && b.total == w.rcv.total && b.expected == w.rcv.expected
  }

  /** The chunk has one buffer, and it holds what the receiver of a transfer of `c` holds in state `w`. */
  ghost predicate ReceivedBy(list: seq<Buffer>, offset: int, c: Chunk, w: World) {
    && c.Valid() && Reachable(c, w)
    && var i := ByOffset(list, offset);
       && i < |list| && Holds(list[i], w)
       && forall j :: 0 <= j < |list| && list[j].offset == offset ==> j == i
  }

  lemma TracksReceived(c: Chunk, sc: Scene, socket: int, offset: int, i: int)
    requires c.Valid() && TracksAt(c, sc, socket, offset, i) && Reachable(c, sc.world)
    ensures ReceivedBy(sc.list, offset, c, sc.world) && ByOffset(sc.list, offset) == i
    ensures sc.list[i].busy ==> BySocket(sc.list, socket) == i
  {
    var j, k := ByOffset(sc.list, offset), BySocket(sc.list, socket);
    assert !(i < j) && !(j < i) && !(i < k);
  }

  /**
   * After any history the chunk's buffer is the receiver of the run its own events make: the same pieces, count
   * and next expected piece. As long as it is busy it is the one the peer's packets go to.
   */
  lemma DeliveriesArrive(c: Chunk, list: seq<Buffer>, socket: int, offset: int, prev: int, count: int,
                         hs: seq<Happening>, end: Scene)
    requires c.Valid() && Outcome(c, list, socket, offset, prev, count, hs, end)
    ensures RunsTo(c, prev, count, Events(hs), end.world)
    ensures ReceivedBy(end.list, offset, c, end.world)
    ensures var i := ByOffset(end.list, offset); end.list[i].busy ==> BySocket(end.list, socket) == i
  {
    BeginsTracks(c, list, socket, offset, prev, count);
    var sc := Scene(AddBuffer(list, c.n, socket, offset), Init(c, prev, count));
    var i := HistoryTracks(c, sc, socket, offset, 0, hs, end);
    assert RunsTo(c, prev, count, Events(hs), end.world);
    TracksReceived(c, end, socket, offset, i);
  }

  /** While the buffer is busy, a DATA packet of the transfer changes no other buffer. */
  lemma OthersUntouched(c: Chunk, sc: Scene, socket: int, offset: int, i: int, packet: Packet)
    requires c.Valid() && TracksAt(c, sc, socket, offset, i) && sc.list[i].busy
    requires Enabled(c, sc.world, DeliverData(packet))
    ensures var r := Happens(c, sc, socket, offset, Own(DeliverData(packet))).list;
      |r| == |sc.list| && forall j :: 0 <= j < |r| && j != i ==> r[j] == sc.list[j]
  {
    DeliveredTo(sc.list, i, packet);
  }
}
