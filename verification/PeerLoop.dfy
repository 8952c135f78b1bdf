/** What the peer's main loop does with response lists and expired timers. */
module PeerLoop {
  import opened Collections
  import opened FlowControl
  import opened SenderImpl
  import opened TrackerImpl
  import opened TransferSystem
  import opened Wire

  // ---------------------------------------------------------------- list reversal

  class Node {
    const packet: Packet
    var next: Node?

    constructor (packet: Packet, next: Node?)
      ensures this.packet == packet && this.next == next
    {
      this.packet := packet;
      this.next := next;
    }
  }

  /** Following `next` from `head` visits exactly `nodes`. */
  ghost predicate Linked(head: Node?, nodes: seq<Node>)
    reads nodes
  {
    if nodes == [] then head == null
    else head == nodes[0] && Linked(nodes[0].next, nodes[1..])
  }

  ghost predicate NoRepeats(nodes: seq<Node>) {
    forall i, j :: 0 <= i < j < |nodes| ==> nodes[i] != nodes[j]
  }

  /** The node at `i` is neither among those after it nor among those before. */
  lemma NodeAt(nodes: seq<Node>, i: nat) returns (todo: seq<Node>, done: seq<Node>)
    requires i < |nodes| && NoRepeats(nodes)
    ensures todo == nodes[i + 1..] == nodes[i..][1..] && done == Reversed(nodes[..i])
    ensures Reversed(nodes[..i + 1]) == [nodes[i]] + done
    ensures (forall n :: n in todo ==> n != nodes[i]) && forall n :: n in done ==> n != nodes[i]
  {
    todo, done := nodes[i + 1..], Reversed(nodes[..i]);
  }

  /** One node leaves the front of the rest for the front of the list already turned round. */
  method TurnOne(rest: Node, cursor: Node?, ghost todo: seq<Node>, ghost done: seq<Node>) returns (next: Node?)
    requires Linked(rest.next, todo) && Linked(cursor, done)
    requires rest !in todo && rest !in done
    modifies rest
    ensures Linked(next, todo) && Linked(rest, [rest] + done)
  {
    next := rest.next;
    rest.next := cursor;
    assert ([rest] + done)[1..] == done;
  }

  /** The list is turned round in place: same nodes, opposite order. */
  method ReverseList(head: Node?, ghost nodes: seq<Node>) returns (cursor: Node?)
    requires Linked(head, nodes) && NoRepeats(nodes)
    modifies nodes
    ensures Linked(cursor, Reversed(nodes))
  {
    cursor := null;
    var rest := head;
    ghost var i, todo, done := 0, nodes, [];
    while rest != null
      invariant 0 <= i <= |nodes| && todo == nodes[i..] && done == Reversed(nodes[..i])
      invariant Linked(rest, todo) && Linked(cursor, done)
      decreases |nodes| - i
    {
      assert rest == todo[0] == nodes[i];
      todo, done := NodeAt(nodes, i);
      var next := TurnOne(rest, cursor, todo, done);
      done := [rest] + done;
      cursor := rest;
      rest := next;
      i := i + 1;
    }
    assert nodes[..i] == nodes;
  }

  // ---------------------------------------------------------------- sending

  /**
   * What decides which packets look alike: the byte order, since a header keeps the network order once its packet
   * has been sent, and the two fields of the dummy head's header, which are never set.
   */
  datatype Memory = Memory(littleEndian: bool, headSeq: int, headAck: int)

  /** A 32-bit number with its four bytes in the opposite order. */
  function SwapBytes(q: int): int {
    q % 256 * 16777216 + q / 256 % 256 * 65536 + q / 65536 % 256 * 256 + q / 16777216
  }

  /** The sequence number in the header of a timed packet. */
  function HeaderSeq(m: Memory, e: Entry): int {
    if e.seqNum == DUMMY_SEQ then m.headSeq else if m.littleEndian then SwapBytes(e.seqNum) else e.seqNum
  }

  /** The acknowledgement number in a DATA header is always 0. */
  const DATA_ACK := 0

  function HeaderAck(m: Memory, e: Entry): int {
    if e.seqNum == DUMMY_SEQ then m.headAck else DATA_ACK
  }

  /** The header of `e` looks like that of the new packet. */
  predicate Looks(m: Memory, e: Entry, packet: Packet) {
    HeaderSeq(m, e) == packet.seqNum && HeaderAck(m, e) == DATA_ACK
  }

  /**
   * `expired(k, j)`: entry `j` has expired when response `k` is due. A packet stays if it looks like such an entry,
   * here one of the first `n`.
   */
  predicate LooksExpired(m: Memory, trk: seq<Entry>, n: nat, packet: Packet, k: nat, expired: (nat, nat) -> bool)
    requires n <= |trk|
  {
    exists j: nat :: j < n && Looks(m, trk[j], packet) && expired(k, j)
  }

  predicate Withheld(m: Memory, trk: seq<Entry>, packet: Packet, k: nat, expired: (nat, nat) -> bool) {
    LooksExpired(m, trk, |trk|, packet, k, expired)
  }

  lemma LooksExpiredNext(m: Memory, trk: seq<Entry>, n: nat, packet: Packet, k: nat, expired: (nat, nat) -> bool)
    requires n < |trk|
    ensures LooksExpired(m, trk, n + 1, packet, k, expired)
       <==> LooksExpired(m, trk, n, packet, k, expired) || (Looks(m, trk[n], packet) && expired(k, n))
  {
    if j: nat :| j < n && Looks(m, trk[j], packet) && expired(k, j) {
    }
  }

  /** The tracker after responses `k` and later of `list`, and what has been sent. */
  ghost function SendAll(m: Memory, trk: seq<Entry>, list: seq<Packet>, sock: int, k: nat, expired: (nat, nat) -> bool):
    (r: (seq<Entry>, seq<Message>))
    requires k <= |list|
    decreases |list| - k
  {
    if k == |list| then (trk, [])
    else if Withheld(m, trk, list[k], k, expired) then SendAll(m, trk, list, sock, k + 1, expired)
    else
      var (trk', sent) := SendAll(m, Track(trk, list[k], sock), list, sock, k + 1, expired);
      (trk', [Data(list[k])] + sent)
  }

  /** Whether some expired timer's header is that of the packet. */
  method IsWithheld(m: Memory, tracker: PacketTracker, packet: Packet, k: nat, expired: (nat, nat) -> bool)
    returns (find: bool)
    requires tracker.Valid()
    ensures find == Withheld(m, tracker.View(), packet, k, expired)
  {
    find := false;
    ghost var entries := tracker.View();
    var itr, j := tracker.head, 0;
    while itr != null
      invariant 0 <= j <= |entries| && itr == At(tracker.nodes, j)
      invariant find == LooksExpired(m, entries, j, packet, k, expired)
      decreases |entries| - j
    {
      assert itr.entry == entries[j];
      LooksExpiredNext(m, entries, j, packet, k, expired);
      if Looks(m, itr.entry, packet) {
        if expired(k, j) {
          find := true;
        }
      }
      itr := itr.next;
      j := j + 1;
    }
  }

  ghost function SendMore(sent: seq<Message>, rest: (seq<Entry>, seq<Message>)): (seq<Entry>, seq<Message>) {
    (rest.0, sent + rest.1)
  }

  lemma SendMoreNext(sent: seq<Message>, m: Message, trk: seq<Entry>, rest: seq<Message>)
    ensures SendMore(sent, (trk, [m] + rest)) == SendMore(sent + [m], (trk, rest))
  {
    assert sent + ([m] + rest) == sent + [m] + rest;
  }

  /** Time and send the packets of a DATA response, in list order, but for those that are withheld. */
  method SendResponses(m: Memory, list: seq<Packet>, sock: int, tracker: PacketTracker, expired: (nat, nat) -> bool)
    returns (sent: seq<Message>)
    requires tracker.Valid()
    modifies tracker, tracker.repr
    ensures tracker.Valid() && fresh(tracker.repr - old(tracker.repr))
    ensures (tracker.View(), sent) == SendAll(m, old(tracker.View()), list, sock, 0, expired)
  {
    sent := [];
    var k := 0;
    ghost var goal := SendAll(m, tracker.View(), list, sock, 0, expired);
    assert [] + goal.1 == goal.1;
    while k < |list|
      invariant 0 <= k <= |list| && tracker.Valid() && fresh(tracker.repr - old(tracker.repr))
      invariant goal == SendMore(sent, SendAll(m, tracker.View(), list, sock, k, expired))
    {
      ghost var trk := tracker.View();
      var find := IsWithheld(m, tracker, list[k], k, expired);
      if !find {
        tracker.CreateTimer(list[k], sock);
        ghost var rest := SendAll(m, tracker.View(), list, sock, k + 1, expired);
        SendMoreNext(sent, Data(list[k]), rest.0, rest.1);
        sent := sent + [Data(list[k])];
      }
      k := k + 1;
    }
    assert sent + [] == sent;
  }

  // ---------------------------------------------------------------- what is withheld

  /** Only the first entry is the dummy, and the others time numbers of 16 bits, as all the program's are. */
  predicate SmallNumbers(trk: seq<Entry>) {
    && (trk != [] ==> trk[0].seqNum == DUMMY_SEQ)
    && forall j :: 1 <= j < |trk| ==> 1 <= trk[j].seqNum < 65536
  }

  predicate SmallPackets(list: seq<Packet>) {
    forall k :: 0 <= k < |list| ==> 1 <= list[k].seqNum < 65536
  }

  /**
   * There is a dummy head (`timed`, or a packet before), it has expired when response `k` is due, and its header
   * happens to be that of the packet.
   */
  predicate HeadInTheWay(m: Memory, timed: bool, list: seq<Packet>, k: nat, expired: (nat, nat) -> bool)
    requires k < |list|
  {
    (timed || k > 0) && m.headSeq == list[k].seqNum && m.headAck == 0 && expired(k, 0)
  }

  /** The swapped form of a number of 16 bits has more than 16. */
  lemma SwappedIsLarge(q: int)
    requires 1 <= q < 65536
    ensures SwapBytes(q) >= 65536
  {
  }

  lemma TrackSmall(trk: seq<Entry>, packet: Packet, sock: int)
    requires SmallNumbers(trk) && 1 <= packet.seqNum < 65536
    ensures SmallNumbers(Track(trk, packet, sock)) && Track(trk, packet, sock) != []
  {
  }

  /** On a little-endian machine only the dummy head can withhold a packet. */
  lemma LittleWithheld(m: Memory, trk: seq<Entry>, packet: Packet, k: nat, expired: (nat, nat) -> bool)
    requires m.littleEndian && SmallNumbers(trk) && 1 <= packet.seqNum < 65536
    ensures Withheld(m, trk, packet, k, expired)
       <==> trk != [] && m.headSeq == packet.seqNum && m.headAck == 0 && expired(k, 0)
  {
    forall j: nat | 1 <= j < |trk| ensures !Looks(m, trk[j], packet) { SwappedIsLarge(trk[j].seqNum); }
    if trk != [] { assert Looks(m, trk[0], packet) <==> m.headSeq == packet.seqNum && m.headAck == 0; }
  }

  lemma {:induction false} OnlyListed(m: Memory, trk: seq<Entry>, list: seq<Packet>, sock: int, k: nat,
                                            expired: (nat, nat) -> bool)
    requires k <= |list|
    ensures |SendAll(m, trk, list, sock, k, expired).1| <= |list| - k
    ensures forall x :: x in SendAll(m, trk, list, sock, k, expired).1 ==> x.Data? && x.packet in list
    decreases |list| - k
  {
    if k == |list| {
    } else {
      OnlyListed(m, if Withheld(m, trk, list[k], k, expired) then trk else Track(trk, list[k], sock),
        list, sock, k + 1, expired);
    }
  }

  lemma ListFrom(trk: seq<Entry>, list: seq<Packet>, k: nat, sock: int)
    requires k < |list|
    ensures TrackAll(trk, list[k..], sock) == TrackAll(Track(trk, list[k], sock), list[k + 1..], sock)
    ensures DataOf(list[k..]) == [Data(list[k])] + DataOf(list[k + 1..])
  {
    assert list[k..][0] == list[k] && list[k..][1..] == list[k + 1..];
  }

  lemma ConsSame(m: Message, sent: seq<Message>, rest: seq<Message>)
    ensures [m] + sent == [m] + rest <==> sent == rest
  {
    var a, b := [m] + sent, [m] + rest;
    assert a[1..] == sent && b[1..] == rest;
    if a == b { assert a[1..] == b[1..]; }
  }

  /** None of the packets from `k` on finds the dummy head in its way. */
  ghost predicate HeadAside(m: Memory, timed: bool, list: seq<Packet>, k: nat, expired: (nat, nat) -> bool) {
    forall i: nat :: k <= i < |list| ==> !HeadInTheWay(m, timed, list, i, expired)
  }

  lemma HeadAsideNext(m: Memory, timed: bool, list: seq<Packet>, k: nat, expired: (nat, nat) -> bool)
    requires k < |list|
    ensures HeadAside(m, timed, list, k, expired)
       <==> !HeadInTheWay(m, timed, list, k, expired) && HeadAside(m, true, list, k + 1, expired)
  {
    forall i: nat | k + 1 <= i < |list|
      ensures HeadInTheWay(m, timed, list, i, expired) == HeadInTheWay(m, true, list, i, expired)
    {
    }
  }

  lemma {:induction false} LittleFrom(m: Memory, trk: seq<Entry>, list: seq<Packet>, sock: int, k: nat,
                                      expired: (nat, nat) -> bool)
    requires k <= |list| && m.littleEndian && SmallNumbers(trk) && SmallPackets(list) && (k > 0 ==> trk != [])
    ensures SendAll(m, trk, list, sock, k, expired) == (TrackAll(trk, list[k..], sock), DataOf(list[k..]))
       <==> HeadAside(m, trk != [], list, k, expired)
    decreases |list| - k
  {
    if k == |list| {
    } else {
      LittleWithheld(m, trk, list[k], k, expired);
      ListFrom(trk, list, k, sock);
      HeadAsideNext(m, trk != [], list, k, expired);
      if Withheld(m, trk, list[k], k, expired) {
        OnlyListed(m, trk, list, sock, k + 1, expired);
      } else {
        TrackSmall(trk, list[k], sock);
        LittleFrom(m, Track(trk, list[k], sock), list, sock, k + 1, expired);
        var (_, rest) := SendAll(m, Track(trk, list[k], sock), list, sock, k + 1, expired);
        ConsSame(Data(list[k]), rest, DataOf(list[k + 1..]));
      }
    }
  }

  /**
   * On a little-endian machine every packet of a response is timed and sent, in order, exactly when the header the
   * dummy head never sets is not, once the head has expired, that of one of the packets.
   */
  lemma LittleEndianSendsAll(m: Memory, trk: seq<Entry>, list: seq<Packet>, sock: int, expired: (nat, nat) -> bool)
    requires m.littleEndian && SmallNumbers(trk) && SmallPackets(list)
    ensures SendAll(m, trk, list, sock, 0, expired) == (TrackAll(trk, list, sock), DataOf(list))
       <==> HeadAside(m, trk != [], list, 0, expired)
  {
    LittleFrom(m, trk, list, sock, 0, expired);
    assert list[0..] == list;
  }

  /** On a big-endian machine exactly the expired timer of its own number withholds a packet. */
  lemma BigWithheld(m: Memory, trk: seq<Entry>, packet: Packet, k: nat, expired: (nat, nat) -> bool)
    requires !m.littleEndian && SmallNumbers(trk) && 1 <= packet.seqNum < 65536 && m.headSeq != packet.seqNum
    ensures Withheld(m, trk, packet, k, expired)
       <==> exists j: nat :: j < |trk| && trk[j].seqNum == packet.seqNum && expired(k, j)
    ensures Withheld(m, trk, packet, k, expired) ==> HasSeq(trk, packet.seqNum)
  {
    forall j: nat | j < |trk| ensures Looks(m, trk[j], packet) <==> trk[j].seqNum == packet.seqNum {
    }
  }

  /** So a fast retransmission, the one response that can repeat a number, is not sent while that timer is expired. */
  lemma BigEndianRepeats(m: Memory, trk: seq<Entry>, packet: Packet, sock: int, expired: (nat, nat) -> bool)
    requires !m.littleEndian && SmallNumbers(trk) && 1 <= packet.seqNum < 65536 && m.headSeq != packet.seqNum
    ensures SendAll(m, trk, [packet], sock, 0, expired).1
         == if exists j: nat :: j < |trk| && trk[j].seqNum == packet.seqNum && expired(0, j) then [] else [Data(packet)]
  {
    BigWithheld(m, trk, packet, 0, expired);
    assert [Data(packet)] + [] == [Data(packet)];
  }

  /** One number means one packet. */
  predicate SameByNumber(list: seq<Packet>) {
    forall i, j :: 0 <= i < |list| && 0 <= j < |list| && list[i].seqNum == list[j].seqNum ==> list[i] == list[j]
  }

  lemma OneNewNumber(trk: seq<Entry>, packet: Packet, sock: int, q: int)
    requires q != DUMMY_SEQ && HasSeq(Track(trk, packet, sock), q)
    ensures HasSeq(trk, q) || q == packet.seqNum
  {
  }

  lemma {:induction false} BigFrom(m: Memory, trk: seq<Entry>, list: seq<Packet>, sock: int, k: nat,
                                   expired: (nat, nat) -> bool)
    requires k <= |list| && !m.littleEndian && SmallNumbers(trk) && SmallPackets(list) && SameByNumber(list)
    requires forall i :: 0 <= i < |list| ==> list[i].seqNum != m.headSeq
    ensures SendAll(m, trk, list, sock, k, expired).0 == TrackAll(trk, list[k..], sock)
    ensures forall i :: k <= i < |list| && !HasSeq(trk, list[i].seqNum) ==>
              Data(list[i]) in SendAll(m, trk, list, sock, k, expired).1
    decreases |list| - k
  {
    if k == |list| {
    } else {
      BigWithheld(m, trk, list[k], k, expired);
      ListFrom(trk, list, k, sock);
      TrackSmall(trk, list[k], sock);
      if Withheld(m, trk, list[k], k, expired) {
        BigFrom(m, trk, list, sock, k + 1, expired);
      } else {
        var trk' := Track(trk, list[k], sock);
        BigFrom(m, trk', list, sock, k + 1, expired);
        forall i | k <= i < |list| && !HasSeq(trk, list[i].seqNum)
          ensures Data(list[i]) in SendAll(m, trk, list, sock, k, expired).1
        {
          if HasSeq(trk', list[i].seqNum) { OneNewNumber(trk, list[k], sock, list[i].seqNum); }
        }
      }
    }
  }

  /**
   * On a big-endian machine, when the unset header is that of none of the packets: exactly the packets of the
   * response are timed, every one whose number was not timed before is sent, and nothing else than they.
   */
  lemma BigEndianSendsNew(m: Memory, trk: seq<Entry>, list: seq<Packet>, sock: int, expired: (nat, nat) -> bool)
    requires !m.littleEndian && SmallNumbers(trk) && SmallPackets(list) && SameByNumber(list)
    requires forall i :: 0 <= i < |list| ==> list[i].seqNum != m.headSeq
    ensures var (trk', sent) := SendAll(m, trk, list, sock, 0, expired);
      && trk' == TrackAll(trk, list, sock)
      && (forall i :: 0 <= i < |list| && !HasSeq(trk, list[i].seqNum) ==> Data(list[i]) in sent)
      && forall x :: x in sent ==> x.Data? && x.packet in list
  {
    OnlyListed(m, trk, list, sock, 0, expired);
    BigFrom(m, trk, list, sock, 0, expired);
    assert list[0..] == list;
  }

  // ---------------------------------------------------------------- expired timers

  /** What the timer `e` sends again: nothing if it has not expired or is the dummy. */
  function Resend(e: Entry, expired: bool): seq<Message> {
    if expired && e.seqNum != DUMMY_SEQ then [Data(Packet(e.seqNum, e.packet.payload))] else []
  }

  /** What one pass over the first `n` timers sends again. */
  ghost function Resends(entries: seq<Entry>, expired: seq<bool>, n: nat): seq<Message>
    requires n <= |expired| == |entries|
  {
    if n == 0 then [] else Resends(entries, expired, n - 1) + Resend(entries[n - 1], expired[n - 1])
  }

  lemma ResendsNext(entries: seq<Entry>, expired: seq<bool>, k: nat)
    requires k < |expired| == |entries|
    ensures Resends(entries, expired, k + 1) == Resends(entries, expired, k) + Resend(entries[k], expired[k])
  {
  }

  /** The congestion control of a transfer after `times` losses. */
  function Fallen(cc: Congestion, times: nat): Congestion {
    if times == 0 then cc else OnLoss(Fallen(cc, times - 1))
  }

  function AfterLosses(s: Sender, times: nat): Sender { s.(cc := Fallen(s.cc, times)) }

  lemma OneMoreLoss(s: Sender, times: nat)
    ensures AfterLosses(s, times).(cc := OnLoss(AfterLosses(s, times).cc)) == AfterLosses(s, times + 1)
  {
  }

  /** The transfer, if there is one, has fallen back `times` times. */
  ghost predicate HasFallen(transfer: SendState?, s: Sender, times: nat)
    reads transfer, if transfer != null then {transfer.state} else {}
  {
    transfer != null ==> transfer.View() == AfterLosses(s, times)
  }

  /** Send the packet of one expired timer again and report a loss. */
  method ResendOne(e: Entry, expired: bool, first: SendState?, ghost s: Sender, ghost times: nat)
    returns (sent: seq<Message>)
    requires HasFallen(first, s, times)
    modifies first
    ensures sent == Resend(e, expired) && HasFallen(first, s, times + |sent|)
  {
    sent := [];
    if expired {
      if e.seqNum != DUMMY_SEQ {
        sent := [Data(Packet(e.seqNum, e.packet.payload))];
        if first != null {
          first.ProcessPacketLoss();
          OneMoreLoss(s, times);
        }
      }
    }
  }

  /**
   * Walk the timers and send the packet of every expired one again. Each time a loss is reported for peer 0,
   * the acknowledgement number of a DATA header; `first` is the transfer to that peer, if there is one.
   */
  method RetransmitExpired(tracker: PacketTracker, expired: seq<bool>, first: SendState?, ghost s: Sender)
    returns (sent: seq<Message>)
    requires tracker.Valid() && |expired| == |tracker.View()|
    requires first != null ==> s == first.View()
    modifies first
    ensures sent == Resends(tracker.View(), expired, |expired|) && HasFallen(first, s, |sent|)
  {
    sent := [];
    ghost var entries := tracker.View();
    var itr, k := tracker.head, 0;
    while itr != null
      invariant 0 <= k <= |entries| && itr == At(tracker.nodes, k)
      invariant sent == Resends(entries, expired, k) && HasFallen(first, s, |sent|)
      decreases |entries| - k
    {
      assert itr.entry == entries[k];
      ResendsNext(entries, expired, k);
      var more := ResendOne(itr.entry, expired[k], first, s, |sent|);
      sent := sent + more;
      itr := itr.next;
      k := k + 1;
    }
  }

  /** The events of one entry: nothing if it has not expired or is the dummy. */
  ghost function EntryEvents(trk: seq<Entry>, k: nat, expired: bool, peer: int): seq<Event>
    requires k < |trk|
  {
    if !expired || trk[k].seqNum == DUMMY_SEQ then []
    else if peer == 0 then [Timeout(k), Loss]
    else [Timeout(k)]
  }

  /** The events of one pass over the first `n` entries, seen from the transfer to `peer`. */
  ghost function PassEvents(trk: seq<Entry>, expired: seq<bool>, peer: int, n: nat): seq<Event>
    requires n <= |expired| == |trk|
  {
    if n == 0 then []
    else PassEvents(trk, expired, peer, n - 1) + EntryEvents(trk, n - 1, expired[n - 1], peer)
  }

  /** What a pass leaves behind: the resent packets on the wire, and a loss for each at the transfer to peer 0. */
  ghost function PassOver(c: Chunk, w: World, sent: seq<Message>): World {
    w.(sent := w.sent + sent,
       snd := if c.peer == 0 then AfterLosses(w.snd, |sent|) else w.snd)
  }

  lemma EntryIsRun(c: Chunk, w: World, sent: seq<Message>, k: nat, expired: bool)
    requires k < |w.trk|
    ensures var w1 := PassOver(c, w, sent);
      var es := EntryEvents(w.trk, k, expired, c.peer);
      && CanRun(c, w1, es)
      && Run(c, w1, es) == PassOver(c, w, sent + Resend(w.trk[k], expired))
  {
    var w1 := PassOver(c, w, sent);
    var es := EntryEvents(w.trk, k, expired, c.peer);
    if es == [] {
      assert sent + [] == sent;
    } else {
      var m := Data(Packet(w.trk[k].seqNum, w.trk[k].packet.payload));
      var w2 := Step(c, w1, Timeout(k));
      assert w2.sent == w.sent + (sent + [m]);
      if c.peer == 0 {
        assert es[1..] == [Loss] && [Loss][1..] == [];
        assert Run(c, w2, [Loss]) == Step(c, w2, Loss);
      } else {
        assert es[1..] == [];
      }
    }
  }

  lemma PassEventsNext(trk: seq<Entry>, expired: seq<bool>, peer: int, k: nat)
    requires k < |expired| == |trk|
    ensures PassEvents(trk, expired, peer, k + 1)
         == PassEvents(trk, expired, peer, k) + EntryEvents(trk, k, expired[k], peer)
  {
  }

  lemma PassNext(c: Chunk, w: World, expired: seq<bool>, k: nat, es: seq<Event>, sent: seq<Message>)
    requires k < |expired| == |w.trk| && es == PassEvents(w.trk, expired, c.peer, k)
    requires sent == Resends(w.trk, expired, k) && CanRun(c, w, es) && Run(c, w, es) == PassOver(c, w, sent)
    ensures var es' := PassEvents(w.trk, expired, c.peer, k + 1);
      CanRun(c, w, es') && Run(c, w, es') == PassOver(c, w, Resends(w.trk, expired, k + 1))
  {
    EntryIsRun(c, w, sent, k, expired[k]);
    RunAppend(c, w, es, EntryEvents(w.trk, k, expired[k], c.peer));
    PassEventsNext(w.trk, expired, c.peer, k);
    ResendsNext(w.trk, expired, k);
  }

  /** One pass of the loop is a run of the transfer: of timer events, each with a loss if the peer is 0. */
  lemma {:induction false} PassIsRun(c: Chunk, w: World, expired: seq<bool>, n: nat)
    requires n <= |expired| == |w.trk|
    ensures var es := PassEvents(w.trk, expired, c.peer, n);
      CanRun(c, w, es) && Run(c, w, es) == PassOver(c, w, Resends(w.trk, expired, n))
  {
    if n == 0 {
      assert w.sent + [] == w.sent;
    } else {
      var k := n - 1;
      PassIsRun(c, w, expired, k);
      PassNext(c, w, expired, k, PassEvents(w.trk, expired, c.peer, k), Resends(w.trk, expired, k));
    }
  }
}
