/** Every reachable state of a transfer satisfies the joint invariant. */
module TransferSafety {
  import opened Collections
  import opened FlowControl
  import opened TransferSystem
  import opened Wire

  // ---------------------------------------------------------------- tracker

  /** On any list with distinct numbers exactly the matching entry disappears. */
  lemma UntrackTail(trk: seq<Entry>, sock: int, i: int)
    requires Distinct(trk)
    ensures var r := Untrack(trk, sock, i);
      && Distinct(r)
      && (forall e :: e in r <==> e in trk && !Matches(e, sock, i))
      && (trk != [] && !Matches(trk[0], sock, i) ==> r != [] && r[0] == trk[0])
  {
    if trk == [] {
    } else {
      var rest := trk[1..];
      assert trk == [trk[0]] + rest;
      assert forall k :: 0 <= k < |rest| ==> rest[k] == trk[k + 1];
      if Matches(trk[0], sock, i) {
        forall e | e in rest ensures !Matches(e, sock, i) {
          var k :| 0 <= k < |rest| && rest[k] == e;
          assert trk[0].seqNum != trk[k + 1].seqNum;
        }
      } else {
        UntrackTail(rest, sock, i);
        var r := Untrack(rest, sock, i);
        forall k | 0 <= k < |r| ensures r[k].seqNum != trk[0].seqNum {
          assert r[k] in rest;
          var m :| 0 <= m < |rest| && rest[m] == r[k];
          assert trk[0].seqNum != trk[m + 1].seqNum;
        }
      }
    }
  }

  lemma UntrackKeeps(c: Chunk, trk: seq<Entry>, end: int, i: int)
    requires c.Valid() && end < c.n && 0 <= i && TrackerOk(c, trk, end)
    ensures TrackerOk(c, Untrack(trk, c.peer, i), end)
    ensures forall q :: HasSeq(Untrack(trk, c.peer, i), q) <==> HasSeq(trk, q) && q != i + 1
  {
    UntrackTail(trk, c.peer, i);
    var r := Untrack(trk, c.peer, i);
    assert !Matches(trk[0], c.peer, i);
    forall q ensures HasSeq(r, q) <==> HasSeq(trk, q) && q != i + 1 {
      if HasSeq(r, q) {
        var j :| 0 <= j < |r| && r[j].seqNum == q;
        assert r[j] in trk;
      }
      if HasSeq(trk, q) && q != i + 1 {
        var j :| 0 <= j < |trk| && trk[j].seqNum == q;
        assert trk[j] in r;
      }
    }
    forall j | 1 <= j < |r| ensures TimesPiece(c, r[j], end) {
      assert r[j] in trk;
      var k :| 0 <= k < |trk| && trk[k] == r[j];
      assert k != 0 by { assert r[0].seqNum != r[j].seqNum; }
    }
  }

  lemma {:induction false} UntrackRangeKeeps(c: Chunk, trk: seq<Entry>, end: int, st: seq<PieceState>, lo: int, hi: int)
    requires c.Valid() && end < c.n && TrackerOk(c, trk, end)
    requires 0 <= lo && hi <= |st|
    ensures TrackerOk(c, UntrackRange(trk, c.peer, st, lo, hi), end)
    ensures forall q :: HasSeq(UntrackRange(trk, c.peer, st, lo, hi), q) <==>
                        HasSeq(trk, q) && !(lo <= q - 1 < hi && st[q - 1] != Acked)
    decreases hi - lo
  {
    if lo >= hi {
    } else {
      var t1 := if st[lo] == Acked then trk else Untrack(trk, c.peer, lo);
      if st[lo] != Acked { UntrackKeeps(c, trk, end, lo); }
      UntrackRangeKeeps(c, t1, end, st, lo + 1, hi);
    }
  }

  lemma TrackKeeps(c: Chunk, trk: seq<Entry>, end: int, i: int)
    requires c.Valid() && 0 <= i <= end < c.n
    requires trk == [] || TrackerOk(c, trk, end)
    ensures TrackerOk(c, Track(trk, c.PieceOf(i), c.peer), end)
    ensures forall q :: HasSeq(Track(trk, c.PieceOf(i), c.peer), q) <==>
                        HasSeq(trk, q) || q == i + 1 || (trk == [] && q == DUMMY_SEQ)
  {
    var r := Track(trk, c.PieceOf(i), c.peer);
    if trk == [] {
      assert r[0].seqNum == DUMMY_SEQ && r[1].seqNum == i + 1;
    } else if !HasSeq(trk, i + 1) {
      assert r[|trk|].seqNum == i + 1;
      forall q ensures HasSeq(r, q) <==> HasSeq(trk, q) || q == i + 1 {
        if HasSeq(trk, q) {
          var j :| 0 <= j < |trk| && trk[j].seqNum == q;
          assert r[j].seqNum == q;
        }
      }
    }
  }

  lemma {:induction false} TrackAllKeeps(c: Chunk, trk: seq<Entry>, end: int, lo: int, hi: int)
    requires c.Valid() && -1 <= lo <= hi <= end < c.n
    requires (trk == [] && lo < hi) || TrackerOk(c, trk, end)
    ensures var r := TrackAll(trk, Pieces(c, lo, hi), c.peer);
      && TrackerOk(c, r, end)
      && forall q :: HasSeq(r, q) <==> HasSeq(trk, q) || lo < q - 1 <= hi || (trk == [] && q == DUMMY_SEQ)
    decreases hi - lo
  {
    if lo >= hi {
    } else {
      TrackKeeps(c, trk, end, lo + 1);
      assert Pieces(c, lo, hi)[1..] == Pieces(c, lo + 1, hi);
      TrackAllKeeps(c, Track(trk, c.PieceOf(lo + 1), c.peer), end, lo + 1, hi);
    }
  }

  /** Timers keep their order, and new ones come after them. */
  lemma {:induction false} TrackAllExtends(trk: seq<Entry>, packets: seq<Packet>, sock: int)
    requires trk != []
    ensures trk <= TrackAll(trk, packets, sock)
    decreases |packets|
  {
    if packets == [] {
    } else {
      TrackAllExtends(Track(trk, packets[0], sock), packets[1..], sock);
    }
  }

  // ---------------------------------------------------------------- sender

  lemma SendKeeps(c: Chunk, s: Sender, a: int)
    requires c.Valid() && |s.state| == c.n && Shape(s.state, a, s.end)
    requires 1 <= s.cc.window && -1 <= s.start < a
    ensures var r := AfterSend(s);
      && Shape(r.state, a, r.end)
      && (a == s.start + 1 || a <= s.end || s.end == c.n - 1 ==> a <= r.end || r.end == c.n - 1)
      && (s.end < r.end ==> r.end + 1 - a <= s.cc.window)
  {
  }

  /** Window and threshold stay in range, however the machine rounds. */
  lemma CongestionKeeps(cc: Congestion, sum: real)
    requires CongestionOk(cc)
    ensures CongestionOk(OnLoss(cc))
    ensures CongestionOk(OnAck(cc, sum))
  {
  }

  // ---------------------------------------------------------------- acknowledgements

  /** The third copy of an acknowledgement resends a piece that has left before and changes no piece. */
  lemma AckThird(c: Chunk, s: Sender, a: int, trk: seq<Entry>, x: int, sum: real)
    requires c.Valid() && SenderOk(c, s, a) && 0 <= x <= s.end && CheckAck(s, x).1
    ensures var r := HandleAck(c, s, trk, x, sum);
      && x == s.start
      && r.trk == trk
      && SenderOk(c, r.snd, a) && r.snd.state == s.state && r.snd.end == s.end && r.snd.start == s.start
      && r.out == (if x < c.n - 1 then Pieces(c, x, x + 1) else [])
      && (x < c.n - 1 ==> x + 1 <= s.end)
  {
    CongestionKeeps(s.cc, sum);
  }

  ghost function Advanced(s: Sender, x: int, sum: real): Sender {
    CheckAck(s, x).0.(state := MarkAcked(s.state, s.start + 1, x + 1), start := x, cc := OnAck(s.cc, sum))
  }

  /** The marking loop runs to its end: no unsent piece lies at or below an acknowledged one. */
  lemma NoUnsentMet(c: Chunk, s: Sender, a: int, x: int)
    requires c.Valid() && |s.state| == c.n && Shape(s.state, a, s.end) && -1 <= s.start < a && 0 <= x <= s.end
    ensures AckLimit(c, x) == x + 1
    ensures FirstUnsent(s.state, s.start + 1, x + 1) == if s.start <= x then x + 1 else s.start + 1
  {
  }

  lemma AdvanceTo(c: Chunk, s: Sender, trk: seq<Entry>, x: int, sum: real, s3: Sender, lo: int, hi: int, stop: int)
    requires SenderReady(c, s) && 0 <= x < c.n && lo == s.start + 1 && hi == x + 1 == AckLimit(c, x)
    requires stop == FirstUnsent(s.state, lo, hi) && hi <= stop && (stop == hi || stop == lo)
    requires s3 == s.(state := MarkAcked(s.state, lo, hi), start := x, cc := OnAck(s.cc, sum))
    requires MarkAcked(s.state, lo, stop) == s3.state && stop <= |s.state|
    requires UntrackRange(trk, c.peer, s.state, lo, stop) == UntrackRange(trk, c.peer, s.state, lo, hi)
    ensures Advance(c, s, trk, x, sum)
         == AckResult(AfterSend(s3), UntrackRange(trk, c.peer, s.state, lo, hi), SendList(c, s3))
  {
  }

  /** Marking and refilling, when every piece up to `x` has been sent. */
  lemma AdvanceIs(c: Chunk, s: Sender, a: int, trk: seq<Entry>, x: int, sum: real, s3: Sender)
    requires c.Valid() && |s.state| == c.n && Shape(s.state, a, s.end) && -1 <= s.start < a && 1 <= s.cc.window
    requires 0 <= x <= s.end
    requires s3 == s.(state := MarkAcked(s.state, s.start + 1, x + 1), start := x, cc := OnAck(s.cc, sum))
    ensures Advance(c, s, trk, x, sum)
         == AckResult(AfterSend(s3), UntrackRange(trk, c.peer, s.state, s.start + 1, x + 1), SendList(c, s3))
  {
    NoUnsentMet(c, s, a, x);
    var lo, hi := s.start + 1, x + 1;
    var stop := FirstUnsent(s.state, lo, hi);
    assert MarkAcked(s.state, lo, stop) == MarkAcked(s.state, lo, hi);
    AdvanceTo(c, s, trk, x, sum, s3, lo, hi, stop);
  }

  lemma Advances(c: Chunk, s: Sender, trk: seq<Entry>, x: int, sum: real)
    requires SenderReady(c, s) && -1 <= x <= c.n && !CheckAck(s, x).1
    ensures HandleAck(c, s, trk, x, sum) == Advance(c, CheckAck(s, x).0, trk, x, sum)
  {
  }

  lemma Checked(s: Sender, x: int, sum: real) returns (s1: Sender, s3: Sender)
    ensures s1 == CheckAck(s, x).0 && s3 == Advanced(s, x, sum) && s3.end == s.end && |s3.state| == |s.state|
    ensures s1.state == s.state && s1.start == s.start && s1.end == s.end && s1.cc == s.cc
    ensures s3 == s1.(state := MarkAcked(s1.state, s1.start + 1, x + 1), start := x, cc := OnAck(s1.cc, sum))
  {
    s1, s3 := CheckAck(s, x).0, Advanced(s, x, sum);
  }

  /** Any other acknowledgement of a sent piece marks everything up to it. */
  lemma AckAccepted(c: Chunk, s: Sender, a: int, trk: seq<Entry>, x: int, sum: real)
    requires c.Valid() && |s.state| == c.n && Shape(s.state, a, s.end) && -1 <= s.start < a && 1 <= s.cc.window
    requires 0 <= x <= s.end && !CheckAck(s, x).1
    ensures var s3 := Advanced(s, x, sum);
      && s3.end == s.end && |s3.state| == c.n
      && HandleAck(c, s, trk, x, sum)
         == AckResult(AfterSend(s3), UntrackRange(trk, c.peer, s.state, s.start + 1, x + 1), SendList(c, s3))
  {
    var s1, s3 := Checked(s, x, sum);
    AdvanceIs(c, s1, a, trk, x, sum, s3);
    Advances(c, s, trk, x, sum);
  }

  function Max(x: int, y: int): int { if x < y then y else x }

  lemma AckAcceptedSender(c: Chunk, s: Sender, a: int, x: int, sum: real)
    requires c.Valid() && SenderOk(c, s, a) && 0 <= x <= s.end && !CheckAck(s, x).1
    ensures var r := AfterSend(Advanced(s, x, sum));
      && SenderOk(c, r, Max(a, x + 1))
      && r.start == x
      && 1 <= Advanced(s, x, sum).cc.window
      && Shape(Advanced(s, x, sum).state, Max(a, x + 1), s.end)
  {
    var s3 := Advanced(s, x, sum);
    CongestionKeeps(s.cc, sum);
    assert Shape(s3.state, Max(a, x + 1), s.end);
    SendKeeps(c, s3, Max(a, x + 1));
  }

  /** Reversing the prepended list puts first transmissions in ascending order. */
  lemma SendListAscends(c: Chunk, s: Sender)
    requires c.Valid() && |s.state| == c.n && -1 <= s.end < c.n
    ensures Reversed(SendList(c, s)) == Pieces(c, s.end, SendTarget(s))
  {
    ReversedTwice(Pieces(c, s.end, SendTarget(s)));
  }

  // ---------------------------------------------------------------- the log of sent messages

  lemma SentBeforeGrows(sent: seq<Message>, more: seq<Message>, j: int, q: int)
    requires 0 <= j <= |sent| && SentBefore(sent, j, q)
    ensures SentBefore(sent + more, j, q)
    ensures SentBefore(sent + more, |sent + more|, q)
  {
    var i :| 0 <= i < j && sent[i].Data? && sent[i].packet.seqNum == q;
    assert (sent + more)[i] == sent[i];
  }

  lemma AscendingPrefix(sent: seq<Message>, more: seq<Message>)
    requires AscendingFirstSends(sent)
    requires forall k :: 0 <= k < |more| && more[k].Data? && more[k].packet.seqNum > 1 ==>
               SentBefore(sent + more, |sent| + k, more[k].packet.seqNum - 1)
    ensures AscendingFirstSends(sent + more)
  {
    var all := sent + more;
    forall j | 0 <= j < |all| && all[j].Data? && all[j].packet.seqNum > 1
      ensures SentBefore(all, j, all[j].packet.seqNum - 1)
    {
      if j < |sent| {
        SentBeforeGrows(sent, more, j, all[j].packet.seqNum - 1);
      } else {
        assert all[j] == more[j - |sent|];
      }
    }
  }

  /** All pieces up to `end` have been sent, so resending one of them keeps the order. */
  lemma {:induction false} EarlierSent(sent: seq<Message>, end: int, i: int)
    requires AscendingFirstSends(sent) && SentBefore(sent, |sent|, end + 1)
    requires 0 <= i <= end
    ensures SentBefore(sent, |sent|, i + 1)
    decreases end - i
  {
    if i >= end {
    } else {
      EarlierSent(sent, end, i + 1);
      var j :| 0 <= j < |sent| && sent[j].Data? && sent[j].packet.seqNum == i + 2;
      assert SentBefore(sent, j, i + 1);
      var k :| 0 <= k < j && sent[k].Data? && sent[k].packet.seqNum == i + 1;
    }
  }

  lemma SentSoFar(c: Chunk, sent: seq<Message>, lo: int, hi: int, k: int)
    requires c.Valid() && -1 <= lo <= hi < c.n && 0 <= k <= hi - lo && 0 <= lo + k
    requires lo >= 0 ==> SentBefore(sent, |sent|, lo + 1)
    ensures SentBefore(sent + DataOf(Pieces(c, lo, hi)), |sent| + k, lo + k + 1)
  {
    var more := DataOf(Pieces(c, lo, hi));
    if k == 0 {
      SentBeforeGrows(sent, more, |sent|, lo + 1);
    } else {
      assert (sent + more)[|sent| + k - 1] == Data(c.PieceOf(lo + k));
    }
  }

  /** Sending pieces lo+1..hi in order keeps the log ascending when piece lo has been sent. */
  lemma SendInOrder(c: Chunk, sent: seq<Message>, lo: int, hi: int)
    requires c.Valid() && -1 <= lo <= hi < c.n && 0 <= hi
    requires AscendingFirstSends(sent) && (lo >= 0 ==> SentBefore(sent, |sent|, lo + 1))
    ensures LogOk(sent + DataOf(Pieces(c, lo, hi)), hi)
  {
    var more := DataOf(Pieces(c, lo, hi));
    forall k | 0 <= k < |more| && more[k].Data? && more[k].packet.seqNum > 1
      ensures SentBefore(sent + more, |sent| + k, more[k].packet.seqNum - 1)
    {
      SentSoFar(c, sent, lo, hi, k);
    }
    AscendingPrefix(sent, more);
    SentSoFar(c, sent, lo, hi, hi - lo);
  }

  // ---------------------------------------------------------------- steps

  lemma InitSenderOk(c: Chunk, prev: int, count: int)
    requires c.Valid()
    ensures var s := AfterSend(InitSender(c.n, prev, count));
      && SendTarget(InitSender(c.n, prev, count)) == 0 && s.end == 0 && AckedUpTo(s.state) == 0
      && (SenderOk(c, s, 0) <==> !Misleading(prev, count))
  {
    AckedUpToIs(AfterSend(InitSender(c.n, prev, count)).state, 0);
  }

  /** At the start only piece 0 is on the wire. */
  lemma InitWorld(c: Chunk, prev: int, count: int)
    requires c.Valid()
    ensures var w := Init(c, prev, count);
      && w.snd == AfterSend(InitSender(c.n, prev, count))
      && w.trk == TrackAll([], Pieces(c, -1, 0), c.peer)
      && w.rcv == InitBuffer(c.n, c.peer, 0)
      && w.sent == [] + DataOf(Pieces(c, -1, 0))
  {
    InitSenderOk(c, prev, count);
    SendListAscends(c, InitSender(c.n, prev, count));
  }

  lemma TotalOfMissing(pieces: seq<Piece>)
    requires forall i :: 0 <= i < |pieces| ==> pieces[i].Missing?
    ensures TotalLength(pieces) == 0
  {
  }

  lemma InitReceiverOk(c: Chunk)
    requires c.Valid()
    ensures var b := InitBuffer(c.n, c.peer, 0);
      ReceiverOk(c, b, 0) && GotFirst(b.pieces, 0) && b.total == TotalLength(b.pieces)
  {
    TotalOfMissing(InitBuffer(c.n, c.peer, 0).pieces);
  }

  lemma InitLogOk(c: Chunk)
    requires c.Valid()
    ensures var sent := [] + DataOf(Pieces(c, -1, 0));
      LogOk(sent, 0) && AllMessagesOk(c, sent, InitBuffer(c.n, c.peer, 0), 0)
  {
    SendInOrder(c, [], -1, 0);
  }

  lemma InitOk(c: Chunk, prev: int, count: int)
    requires c.Valid() && !Misleading(prev, count)
    ensures Inv(c, Init(c, prev, count))
  {
    InitWorld(c, prev, count);
    InitSenderOk(c, prev, count);
    TrackAllKeeps(c, [], 0, -1, 0);
    InitReceiverOk(c);
    InitLogOk(c);
  }

  lemma {:induction false} TotalOfStore(pieces: seq<Piece>, i: int, payload: seq<byte>)
    requires 0 <= i < |pieces| && pieces[i].Missing?
    ensures TotalLength(pieces[i := Stored(payload)]) == TotalLength(pieces) + |payload|
  {
    var last := |pieces| - 1;
    var updated := pieces[i := Stored(payload)];
    if i == last {
      assert updated[..last] == pieces[..last];
    } else {
      assert updated[..last] == pieces[..last][i := Stored(payload)];
      TotalOfStore(pieces[..last], i, payload);
    }
  }

  /** `later` still holds everything `earlier` held. */
  ghost predicate Extends(earlier: seq<Piece>, later: seq<Piece>) {
    && |earlier| == |later|
    && forall i :: 0 <= i < |earlier| && earlier[i].Stored? ==> later[i] == earlier[i]
  }

  /** What holds between storing a piece and scanning: everything but the scan position. */
  ghost predicate StoredOk(c: Chunk, b: Buffer, end: int)
    requires c.Valid()
  {
    && |b.pieces| == c.n
    && 1 <= b.expected <= c.n
    && (forall i :: 0 <= i < c.n && b.pieces[i].Stored? ==> i <= end && b.pieces[i].data == c.Slice(i))
    && GotFirst(b.pieces, b.expected)
  }

  lemma StoreKeeps(c: Chunk, b: Buffer, end: int, packet: Packet)
    requires c.Valid() && end < c.n && ReceiverOk(c, b, end)
    requires MessageOk(c, Data(packet), b, end)
    ensures var r := Store(b, packet.seqNum - 1, packet.payload);
      && StoredOk(c, r, end)
      && Extends(b.pieces, r.pieces)
      && r.pieces[packet.seqNum - 1].Stored?
      && r.expected == b.expected
      && (b.total == TotalLength(b.pieces) ==> r.total == TotalLength(r.pieces))
  {
    if b.pieces[packet.seqNum - 1].Missing? {
      TotalOfStore(b.pieces, packet.seqNum - 1, packet.payload);
    }
  }

  lemma ScanKeeps(c: Chunk, b: Buffer, end: int)
    requires c.Valid() && end < c.n && StoredOk(c, b, end)
    ensures var r := b.(expected := Scan(b.pieces, b.expected));
      ReceiverOk(c, r, end) && b.expected <= r.expected && GotFirst(r.pieces, r.expected)
  {
  }

  /** A delivered DATA packet is stored, and the acknowledgement sent back covers only stored pieces. */
  lemma ReceiveKeeps(c: Chunk, b: Buffer, end: int, packet: Packet)
    requires c.Valid() && end < c.n && ReceiverOk(c, b, end)
    requires MessageOk(c, Data(packet), b, end)
    ensures var (r, ack) := Receive(b, packet);
      && ReceiverOk(c, r, end)
      && Extends(b.pieces, r.pieces)
      && r.pieces[packet.seqNum - 1].Stored?
      && b.expected <= r.expected
      && ack == Some(r.expected)
      && GotFirst(r.pieces, r.expected)
      && (b.total == TotalLength(b.pieces) ==> r.total == TotalLength(r.pieces))
  {
    StoreKeeps(c, b, end, packet);
    ScanKeeps(c, Store(b, packet.seqNum - 1, packet.payload), end);
  }

  lemma LogKeeps(c: Chunk, sent: seq<Message>, b: Buffer, end: int, b': Buffer, end': int)
    requires c.Valid() && |b.pieces| == c.n && end <= end' < c.n
    requires Extends(b.pieces, b'.pieces) && b.expected <= b'.expected
    requires AllMessagesOk(c, sent, b, end)
    ensures AllMessagesOk(c, sent, b', end')
  {
  }

  lemma DataStepOk(c: Chunk, w: World, packet: Packet)
    requires c.Valid() && Inv(c, w) && Data(packet) in w.sent
    ensures Enabled(c, w, DeliverData(packet)) && Inv(c, Step(c, w, DeliverData(packet)))
  {
    ReceiveKeeps(c, w.rcv, w.snd.end, packet);
    var w' := Step(c, w, DeliverData(packet));
    LogKeeps(c, w.sent, w.rcv, w.snd.end, w'.rcv, w.snd.end);
    var more := [Ack(w'.rcv.expected)];
    assert w'.sent == w.sent + more;
    AscendingPrefix(w.sent, more);
    SentBeforeGrows(w.sent, more, |w.sent|, w.snd.end + 1);
  }

  /** An acknowledgement on the wire never runs past what was sent. */
  lemma AckInRange(c: Chunk, w: World, num: int)
    requires c.Valid() && Inv(c, w) && Ack(num) in w.sent
    ensures 0 <= num - 1 <= w.snd.end
  {
    assert MessageOk(c, Ack(num), w.rcv, w.snd.end);
    assert w.rcv.pieces[num - 1].Stored?;
  }

  /** Sending a piece again keeps the log in order. */
  lemma ResendLogOk(c: Chunk, sent: seq<Message>, end: int, i: int)
    requires c.Valid() && LogOk(sent, end) && 0 <= i <= end < c.n
    ensures LogOk(sent + [Data(c.PieceOf(i))], end)
  {
    var more := DataOf(Pieces(c, i - 1, i));
    assert more == [Data(c.PieceOf(i))];
    if i > 0 { EarlierSent(sent, end, i - 1); }
    SendInOrder(c, sent, i - 1, i);
    SentBeforeGrows(sent, more, |sent|, end + 1);
  }

  /** Once a piece past 0 has left, piece 0 is stored. */
  lemma FirstPieceStored(c: Chunk, w: World)
    requires c.Valid() && Inv(c, w) && 1 <= w.snd.end
    ensures w.rcv.pieces[0].Stored?
  {
    assert 1 <= AckedCount(w);
  }

  lemma ResendOk(c: Chunk, w: World, i: int)
    requires c.Valid() && Inv(c, w) && 0 <= i <= w.snd.end
    ensures LogOk(w.sent + [Data(c.PieceOf(i))], w.snd.end)
    ensures AllMessagesOk(c, w.sent + [Data(c.PieceOf(i))], w.rcv, w.snd.end)
  {
    ResendLogOk(c, w.sent, w.snd.end, i);
    if i > 0 { FirstPieceStored(c, w); }
    assert MessageOk(c, Data(c.PieceOf(i)), w.rcv, w.snd.end);
  }

  lemma AckStepIs(c: Chunk, w: World, num: int, sum: real)
    requires SenderReady(c, w.snd) && Ack(num) in w.sent && 1 <= num
    ensures Enabled(c, w, DeliverAck(num, sum))
    ensures Step(c, w, DeliverAck(num, sum)) == TakeAck(c, w, num, sum)
  {
  }

  lemma RespondOne(c: Chunk, w: World, r: AckResult, i: int)
    requires c.Valid() && 0 <= i < c.n && r.out == Pieces(c, i - 1, i)
    ensures Respond(c, w, r) == World(r.snd, TrackAll(r.trk, Pieces(c, i - 1, i), c.peer), w.rcv,
                                      w.sent + [Data(c.PieceOf(i))])
  {
    assert Reversed(r.out) == r.out;
    assert DataOf(r.out) == [Data(c.PieceOf(i))];
  }

  lemma RespondNone(c: Chunk, w: World, r: AckResult)
    requires r.out == []
    ensures Respond(c, w, r) == World(r.snd, r.trk, w.rcv, w.sent)
  {
    assert DataOf(Reversed(r.out)) == [];
    assert w.sent + [] == w.sent;
  }

  /** What the third copy of an acknowledgement does to the world. */
  lemma AckThirdWorld(c: Chunk, w: World, num: int, sum: real) returns (r: AckResult)
    requires c.Valid() && SenderOk(c, w.snd, AckedCount(w)) && Ack(num) in w.sent
    requires 0 <= num - 1 <= w.snd.end && CheckAck(w.snd, num - 1).1
    ensures Enabled(c, w, DeliverAck(num, sum)) && Step(c, w, DeliverAck(num, sum)) == Respond(c, w, r)
    ensures SenderOk(c, r.snd, AckedCount(w))
    ensures r.snd.state == w.snd.state && r.snd.end == w.snd.end && r.snd.start == w.snd.start == num - 1
    ensures num < c.n ==> num <= w.snd.end
    ensures Respond(c, w, r) ==
      if num < c.n
      then World(r.snd, TrackAll(w.trk, Pieces(c, num - 1, num), c.peer), w.rcv, w.sent + [Data(c.PieceOf(num))])
      else World(r.snd, w.trk, w.rcv, w.sent)
  {
    AckThird(c, w.snd, AckedCount(w), w.trk, num - 1, sum);
    r := HandleAck(c, w.snd, w.trk, num - 1, sum);
    AckStepIs(c, w, num, sum);
    if num < c.n { RespondOne(c, w, r, num); } else { RespondNone(c, w, r); }
  }

  /** Sending a piece again, with a tracker that still times all waiting pieces, keeps the invariant. */
  lemma ResentWorldOk(c: Chunk, w: World, i: int, s': Sender, trk: seq<Entry>)
    requires c.Valid() && Inv(c, w) && 0 <= i <= w.snd.end
    requires SenderOk(c, s', AckedCount(w)) && s'.state == w.snd.state && s'.end == w.snd.end
    requires TrackerOk(c, trk, w.snd.end) && AllWaitingTracked(w.snd.state, trk)
    ensures Inv(c, World(s', trk, w.rcv, w.sent + [Data(c.PieceOf(i))]))
  {
    ResendOk(c, w, i);
  }

  lemma TrackedStay(st: seq<PieceState>, trk: seq<Entry>, trk': seq<Entry>)
    requires AllWaitingTracked(st, trk) && forall q :: HasSeq(trk, q) ==> HasSeq(trk', q)
    ensures AllWaitingTracked(st, trk')
  {
  }

  lemma RetransmittedWorldOk(c: Chunk, w: World, num: int, s': Sender)
    requires c.Valid() && Inv(c, w) && 1 <= num <= w.snd.end
    requires SenderOk(c, s', AckedCount(w)) && s'.state == w.snd.state && s'.end == w.snd.end
    ensures Inv(c, World(s', TrackAll(w.trk, Pieces(c, num - 1, num), c.peer), w.rcv, w.sent + [Data(c.PieceOf(num))]))
  {
    TrackAllKeeps(c, w.trk, w.snd.end, num - 1, num);
    var trk := TrackAll(w.trk, Pieces(c, num - 1, num), c.peer);
    TrackedStay(w.snd.state, w.trk, trk);
    ResentWorldOk(c, w, num, s', trk);
  }

  lemma SameWorldOk(c: Chunk, w: World, s': Sender)
    requires c.Valid() && Inv(c, w)
    requires SenderOk(c, s', AckedCount(w)) && s'.state == w.snd.state && s'.end == w.snd.end
    ensures Inv(c, World(s', w.trk, w.rcv, w.sent))
  {
  }

  lemma AckThirdStepOk(c: Chunk, w: World, num: int, sum: real)
    requires c.Valid() && Inv(c, w) && Ack(num) in w.sent && CheckAck(w.snd, num - 1).1
    ensures Enabled(c, w, DeliverAck(num, sum)) && Inv(c, Step(c, w, DeliverAck(num, sum)))
    ensures Step(c, w, DeliverAck(num, sum)).snd.state == w.snd.state
  {
    AckInRange(c, w, num);
    var r := AckThirdWorld(c, w, num, sum);
    if num < c.n { RetransmittedWorldOk(c, w, num, r.snd); } else { SameWorldOk(c, w, r.snd); }
  }

  /** The tracker after an accepted acknowledgement. */
  ghost function AcceptedTracker(c: Chunk, w: World, num: int, end': int): seq<Entry>
    requires c.Valid() && |w.snd.state| == c.n && -1 <= w.snd.start && -1 <= w.snd.end <= end' < c.n && num <= c.n
  {
    TrackAll(UntrackRange(w.trk, c.peer, w.snd.state, w.snd.start + 1, num), Pieces(c, w.snd.end, end'), c.peer)
  }

  /** The world after any other acknowledgement, given the sender it leaves. */
  ghost function AcceptedWorld(c: Chunk, w: World, num: int, s': Sender): World
    requires c.Valid() && |w.snd.state| == c.n && -1 <= w.snd.start && -1 <= w.snd.end <= s'.end < c.n && num <= c.n
  {
    World(s', AcceptedTracker(c, w, num, s'.end), w.rcv, w.sent + DataOf(Pieces(c, w.snd.end, s'.end)))
  }

  /** The sender it leaves: everything up to `num - 1` acknowledged, the window refilled and respected. */
  lemma AcceptedSender(c: Chunk, w: World, num: int, sum: real, s': Sender)
    requires c.Valid() && SenderOk(c, w.snd, AckedCount(w))
    requires 0 <= num - 1 <= w.snd.end && !CheckAck(w.snd, num - 1).1
    requires s' == AfterSend(Advanced(w.snd, num - 1, sum))
    ensures SenderOk(c, s', Max(AckedCount(w), num)) && AckedUpTo(s'.state) == Max(AckedCount(w), num)
    ensures s'.start == num - 1 && w.snd.end <= s'.end < c.n
    ensures w.snd.end < s'.end ==> s'.end + 1 - Max(AckedCount(w), num) <= s'.cc.window
  {
    var a := AckedCount(w);
    AckAcceptedSender(c, w.snd, a, num - 1, sum);
    SendKeeps(c, Advanced(w.snd, num - 1, sum), Max(a, num));
    AckedUpToIs(s'.state, Max(a, num));
  }

  lemma RespondRange(c: Chunk, w: World, r: AckResult, s: Sender)
    requires c.Valid() && |s.state| == c.n && -1 <= s.end < c.n
    requires r.snd == AfterSend(s) && r.out == SendList(c, s)
    ensures r.snd.end < c.n
    ensures var out := Pieces(c, s.end, r.snd.end);
      Respond(c, w, r) == World(r.snd, TrackAll(r.trk, out, c.peer), w.rcv, w.sent + DataOf(out))
  {
    SendListAscends(c, s);
  }

  lemma AcceptedRespond(c: Chunk, w: World, num: int, r: AckResult, s: Sender)
    requires c.Valid() && |w.snd.state| == c.n && -1 <= w.snd.start && -1 <= w.snd.end < c.n && num <= c.n
    requires |s.state| == c.n && s.end == w.snd.end && r.snd == AfterSend(s) && r.out == SendList(c, s)
    requires r.trk == UntrackRange(w.trk, c.peer, w.snd.state, w.snd.start + 1, num)
    ensures w.snd.end <= r.snd.end < c.n && Respond(c, w, r) == AcceptedWorld(c, w, num, r.snd)
  {
    RespondRange(c, w, r, s);
  }

  /** The step when `handle_ack` refills the window of a sender `s`. */
  lemma StepFromResult(c: Chunk, w: World, num: int, sum: real, s: Sender)
    requires SenderReady(c, w.snd) && Ack(num) in w.sent && 1 <= num <= c.n && w.snd.end < c.n
    requires |s.state| == c.n && s.end == w.snd.end
    requires HandleAck(c, w.snd, w.trk, num - 1, sum)
          == AckResult(AfterSend(s), UntrackRange(w.trk, c.peer, w.snd.state, w.snd.start + 1, num), SendList(c, s))
    ensures w.snd.end <= AfterSend(s).end < c.n && Enabled(c, w, DeliverAck(num, sum))
    ensures Step(c, w, DeliverAck(num, sum)) == AcceptedWorld(c, w, num, AfterSend(s))
  {
    var r := HandleAck(c, w.snd, w.trk, num - 1, sum);
    AckStepIs(c, w, num, sum);
    AcceptedRespond(c, w, num, r, s);
  }

  /** What any other acknowledgement does to the world. */
  lemma AckAcceptedWorld(c: Chunk, w: World, num: int, sum: real) returns (s': Sender)
    requires c.Valid() && |w.snd.state| == c.n && Shape(w.snd.state, AckedCount(w), w.snd.end)
    requires -1 <= w.snd.start < AckedCount(w) && 1 <= w.snd.cc.window && Ack(num) in w.sent
    requires 0 <= num - 1 <= w.snd.end && !CheckAck(w.snd, num - 1).1
    ensures s' == AfterSend(Advanced(w.snd, num - 1, sum)) && w.snd.end <= s'.end < c.n
    ensures Enabled(c, w, DeliverAck(num, sum)) && Step(c, w, DeliverAck(num, sum)) == AcceptedWorld(c, w, num, s')
  {
    AckAccepted(c, w.snd, AckedCount(w), w.trk, num - 1, sum);
    var s := Advanced(w.snd, num - 1, sum);
    s' := AfterSend(s);
    StepFromResult(c, w, num, sum, s);
  }

  /** Which numbers that tracker holds. */
  lemma AcceptedTrackerKeeps(c: Chunk, w: World, num: int, end': int)
    requires c.Valid() && |w.snd.state| == c.n && -1 <= w.snd.start && -1 <= w.snd.end <= end' < c.n && num <= c.n
    requires TrackerOk(c, w.trk, w.snd.end)
    ensures var r := AcceptedTracker(c, w, num, end');
      && TrackerOk(c, r, end')
      && forall q :: HasSeq(r, q) <==>
          || (HasSeq(w.trk, q) && !(w.snd.start < q - 1 < num && w.snd.state[q - 1] != Acked))
          || w.snd.end < q - 1 <= end'
  {
    UntrackRangeKeeps(c, w.trk, w.snd.end, w.snd.state, w.snd.start + 1, num);
    var trk := UntrackRange(w.trk, c.peer, w.snd.state, w.snd.start + 1, num);
    TrackAllKeeps(c, trk, end', w.snd.end, end');
  }

  /** After an accepted acknowledgement every waiting piece is timed. */
  lemma AcceptedTracked(c: Chunk, w: World, num: int, s': Sender)
    requires c.Valid() && SenderOk(c, w.snd, AckedCount(w)) && TrackerOk(c, w.trk, w.snd.end)
    requires AllWaitingTracked(w.snd.state, w.trk)
    requires num <= c.n && SenderOk(c, s', Max(AckedCount(w), num)) && w.snd.end <= s'.end
    ensures AllWaitingTracked(s'.state, AcceptedTracker(c, w, num, s'.end))
  {
    AcceptedTrackerKeeps(c, w, num, s'.end);
    forall i | 0 <= i < c.n && s'.state[i] == Unacked
      ensures HasSeq(AcceptedTracker(c, w, num, s'.end), i + 1)
    {
      if i <= w.snd.end { assert w.snd.state[i] == Unacked; }
    }
  }

  lemma ReceiverSeesMore(c: Chunk, b: Buffer, end: int, end': int)
    requires c.Valid() && end <= end' < c.n && ReceiverOk(c, b, end)
    ensures ReceiverOk(c, b, end')
  {
  }

  lemma FirstSendsOk(c: Chunk, w: World, end': int)
    requires c.Valid() && Inv(c, w) && w.rcv.pieces[0].Stored? && w.snd.end <= end' < c.n
    ensures AllMessagesOk(c, w.sent + DataOf(Pieces(c, w.snd.end, end')), w.rcv, end')
  {
    LogKeeps(c, w.sent, w.rcv, w.snd.end, w.rcv, end');
    var more := DataOf(Pieces(c, w.snd.end, end'));
    forall m | m in more ensures MessageOk(c, m, w.rcv, end') {
      var k :| 0 <= k < |more| && more[k] == m;
      assert m == Data(c.PieceOf(w.snd.end + 1 + k));
    }
  }

  lemma AcceptedWorldOk(c: Chunk, w: World, num: int, s': Sender)
    requires c.Valid() && Inv(c, w) && 1 <= num <= c.n && GotFirst(w.rcv.pieces, num)
    requires SenderOk(c, s', Max(AckedCount(w), num)) && AckedUpTo(s'.state) == Max(AckedCount(w), num)
    requires w.snd.end <= s'.end
    ensures Inv(c, AcceptedWorld(c, w, num, s'))
  {
    AcceptedTrackerKeeps(c, w, num, s'.end);
    AcceptedTracked(c, w, num, s');
    SendInOrder(c, w.sent, w.snd.end, s'.end);
    FirstSendsOk(c, w, s'.end);
    ReceiverSeesMore(c, w.rcv, w.snd.end, s'.end);
  }

  lemma AckAcceptedStepOk(c: Chunk, w: World, num: int, sum: real)
    requires c.Valid() && Inv(c, w) && Ack(num) in w.sent && !CheckAck(w.snd, num - 1).1
    ensures Enabled(c, w, DeliverAck(num, sum)) && Inv(c, Step(c, w, DeliverAck(num, sum)))
    ensures AckedCount(Step(c, w, DeliverAck(num, sum))) == Max(AckedCount(w), num)
  {
    AckInRange(c, w, num);
    assert MessageOk(c, Ack(num), w.rcv, w.snd.end);
    var s' := AckAcceptedWorld(c, w, num, sum);
    AcceptedSender(c, w, num, sum, s');
    AcceptedWorldOk(c, w, num, s');
  }

  /** An expired timer resends the piece it times. */
  lemma TimerResends(c: Chunk, w: World, index: int) returns (i: int)
    requires c.Valid() && -1 <= w.snd.end < c.n && TrackerOk(c, w.trk, w.snd.end) && 1 <= index < |w.trk|
    ensures i == w.trk[index].seqNum - 1 && 0 <= i <= w.snd.end
    ensures Step(c, w, Timeout(index)) == w.(sent := w.sent + [Data(c.PieceOf(i))])
  {
    assert TimesPiece(c, w.trk[index], w.snd.end);
    i := w.trk[index].seqNum - 1;
  }

  lemma ResentOnWire(c: Chunk, w: World, i: int)
    requires c.Valid() && Inv(c, w) && 0 <= i <= w.snd.end
    ensures Inv(c, w.(sent := w.sent + [Data(c.PieceOf(i))]))
  {
    ResendOk(c, w, i);
  }

  lemma TimeoutStepOk(c: Chunk, w: World, index: int)
    requires c.Valid() && Inv(c, w) && 0 <= index < |w.trk|
    ensures Inv(c, Step(c, w, Timeout(index)))
  {
    if index > 0 {
      var i := TimerResends(c, w, index);
      ResentOnWire(c, w, i);
    }
  }

  /** Every step keeps the invariant. */
  lemma StepOk(c: Chunk, w: World, e: Event)
    requires c.Valid() && Inv(c, w) && Enabled(c, w, e)
    ensures Inv(c, Step(c, w, e))
  {
    match e
    case DeliverData(packet) => DataStepOk(c, w, packet);
    case DeliverAck(num, sum) =>
      if CheckAck(w.snd, num - 1).1 { AckThirdStepOk(c, w, num, sum); } else { AckAcceptedStepOk(c, w, num, sum); }
    case Timeout(index) => TimeoutStepOk(c, w, index);
    case Loss => CongestionKeeps(w.snd.cc, 0.0);
  }

  lemma {:induction false} RunOk(c: Chunk, w: World, es: seq<Event>)
    requires c.Valid() && Inv(c, w) && CanRun(c, w, es)
    ensures Inv(c, Run(c, w, es))
    decreases |es|
  {
    if es == [] {
    } else {
      StepOk(c, w, es[0]);
      RunOk(c, Step(c, w, es[0]), es[1..]);
    }
  }

  lemma ReachableOk(c: Chunk, w: World)
    requires c.Valid() && ReachableClear(c, w)
    ensures Inv(c, w)
  {
    var prev, count, es :| ReachedBy(c, prev, count, es, w);
    InitOk(c, prev, count);
    RunOk(c, Init(c, prev, count), es);
  }
}
