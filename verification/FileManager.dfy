/** Asking for chunks and writing the finished file. */
module FileManager {
  import opened Deliveries
  import opened FlowControl
  import opened ReceiveBuffers
  import opened ReceiverImpl
  import opened TransferIntegrity
  import opened TransferSystem
  import opened Wire

  /** One offered chunk: true when it is known and gets a buffer. */
  method TryOffer(buffers: RecvList, offer: int, socket: int) returns (taken: bool)
    requires buffers.Valid()
    modifies buffers
    ensures buffers.Valid() && taken == (offer != -1 && Free(old(buffers.View()), socket, offer))
    ensures buffers.View()
         == if taken then AddBuffer(old(buffers.View()), buffers.n, socket, offer) else old(buffers.View())
  {
    taken := false;
    if offer != -1 {
      var code := buffers.InitRecvBuffer(offer, socket);
      taken := code != -1;
    }
  }

  /** What is still to be answered, put before `gets`, completes `goal`. */
  ghost predicate Remaining(list: seq<Buffer>, n: int, socket: int, offers: seq<int>, gets: seq<int>,
                            goal: (seq<Buffer>, seq<int>))
    requires 0 <= n
  {
    var (list', more) := AnswerIhave(list, n, socket, offers);
    list' == goal.0 && more + gets == goal.1
  }

  lemma OfferStep(list: seq<Buffer>, n: int, socket: int, offers: seq<int>, gets: seq<int>,
                  goal: (seq<Buffer>, seq<int>))
    requires 0 <= n && offers != [] && Remaining(list, n, socket, offers, gets, goal)
    ensures if offers[0] != -1 && Free(list, socket, offers[0])
            then Remaining(AddBuffer(list, n, socket, offers[0]), n, socket, offers[1..], [offers[0]] + gets, goal)
            else Remaining(list, n, socket, offers[1..], gets, goal)
  {
    var more := AnswerIhave(AddBuffer(list, n, socket, offers[0]), n, socket, offers[1..]).1;
    assert more + [offers[0]] + gets == more + ([offers[0]] + gets);
  }

  /** Answer an IHAVE from `socket`: each offered chunk that gets a buffer is requested. */
  method HandleIhave(buffers: RecvList, offers: seq<int>, socket: int) returns (gets: seq<int>)
    requires buffers.Valid()
    modifies buffers
    ensures buffers.Valid()
    ensures (buffers.View(), gets) == AnswerIhave(old(buffers.View()), buffers.n, socket, offers)
  {
    gets := [];
    var k := 0;
    ghost var list := buffers.View();
    ghost var goal := AnswerIhave(list, buffers.n, socket, offers);
    assert offers[0..] == offers && goal.1 + [] == goal.1;
    while k < |offers|
      invariant 0 <= k <= |offers| && buffers.Valid() && buffers.View() == list
      invariant Remaining(list, buffers.n, socket, offers[k..], gets, goal)
    {
      OfferStep(list, buffers.n, socket, offers[k..], gets, goal);
      assert offers[k..][1..] == offers[k + 1..];
      var taken := TryOffer(buffers, offers[k], socket);
      list := buffers.View();
      if taken {
        gets := [offers[k]] + gets;
      }
      k := k + 1;
    }
    assert offers[k..] == [] && [] + gets == gets;
  }

  ghost function ReleaseAll(list: seq<Buffer>, offsets: seq<int>): seq<Buffer> {
    if offsets == [] then list
    else Release(ReleaseAll(list, offsets[..|offsets| - 1]), offsets[|offsets| - 1])
  }

  ghost predicate AllFull(list: seq<Buffer>, offsets: seq<int>, size: int) {
    forall i :: 0 <= i < |offsets| ==> IsFull(list, offsets[i], size)
  }

  /** How many of the requested chunks, in order, are full before the first one that is not. */
  ghost function FullPrefix(list: seq<Buffer>, offsets: seq<int>, size: int): (k: nat)
    ensures k <= |offsets| && AllFull(list, offsets[..k], size)
    ensures k < |offsets| ==> !IsFull(list, offsets[k], size)
  {
    if offsets == [] || !IsFull(list, offsets[0], size) then 0
    else
      var k := 1 + FullPrefix(list, offsets[1..], size);
      assert forall i :: 1 <= i < k ==> offsets[..k][i] == offsets[1..][..k - 1][i - 1];
      k
  }

  lemma PrefixFull(list: seq<Buffer>, offsets: seq<int>, size: int, k: nat)
    requires k <= |offsets| && AllFull(list, offsets[..k], size)
    ensures forall i :: 0 <= i < k ==> IsFull(list, offsets[i], size)
  {
    forall i | 0 <= i < k ensures IsFull(list, offsets[i], size) { assert offsets[..k][i] == offsets[i]; }
  }

  lemma FullPrefixIs(list: seq<Buffer>, offsets: seq<int>, size: int, k: nat)
    requires k <= |offsets| && AllFull(list, offsets[..k], size) && (k < |offsets| ==> !IsFull(list, offsets[k], size))
    ensures FullPrefix(list, offsets, size) == k
  {
    PrefixFull(list, offsets, size, k);
    PrefixFull(list, offsets, size, FullPrefix(list, offsets, size));
  }

  ghost predicate SameData(list: seq<Buffer>, r: seq<Buffer>) {
    && |list| == |r|
    && forall i :: 0 <= i < |list| ==>
         list[i].offset == r[i].offset && list[i].total == r[i].total && list[i].pieces == r[i].pieces
  }

  lemma {:induction false} ReleaseKeepsData(list: seq<Buffer>, offsets: seq<int>)
    ensures SameData(list, ReleaseAll(list, offsets))
  {
    if offsets == [] {
    } else {
      ReleaseKeepsData(list, offsets[..|offsets| - 1]);
    }
  }

  /** Exactly the buffers of the chunks given stop being busy. */
  lemma {:induction false} ReleasedExactly(list: seq<Buffer>, offsets: seq<int>)
    ensures |ReleaseAll(list, offsets)| == |list|
    ensures forall j :: 0 <= j < |list| ==>
              ReleaseAll(list, offsets)[j] == list[j].(busy := list[j].busy && list[j].offset !in offsets)
  {
    if offsets == [] {
    } else {
      var init, last := offsets[..|offsets| - 1], offsets[|offsets| - 1];
      ReleasedExactly(list, init);
      assert forall o :: o in offsets <==> o in init || o == last;
    }
  }

  /** Where the release loop stops tells whether all chunks are full. */
  lemma StoppedAt(list: seq<Buffer>, offsets: seq<int>, size: int, k: nat)
    requires k <= |offsets| && AllFull(list, offsets[..k], size) && (k < |offsets| ==> !IsFull(list, offsets[k], size))
    ensures FullPrefix(list, offsets, size) == k && (AllFull(list, offsets, size) <==> k == |offsets|)
    ensures SameData(list, ReleaseAll(list, offsets[..k]))
  {
    FullPrefixIs(list, offsets, size, k);
    ReleaseKeepsData(list, offsets[..k]);
    if k == |offsets| { assert offsets[..k] == offsets; }
  }

  /** The first `k` pieces of a chunk, one after the other. */
  ghost function ChunkBytes(list: seq<Buffer>, offset: int, k: nat): seq<byte> {
    if k == 0 then [] else ChunkBytes(list, offset, k - 1) + CopyPiece(list, offset, k - 1)
  }

  /** The chunks in requested order, `n` pieces each. */
  ghost function FileBytes(list: seq<Buffer>, offsets: seq<int>, n: nat): seq<byte> {
    if offsets == [] then []
    else FileBytes(list, offsets[..|offsets| - 1], n) + ChunkBytes(list, offsets[|offsets| - 1], n)
  }

  lemma SameLookup(list: seq<Buffer>, r: seq<Buffer>, offset: int)
    requires SameData(list, r)
    ensures ByOffset(list, offset) == ByOffset(r, offset)
    ensures forall size :: IsFull(list, offset, size) <==> IsFull(r, offset, size)
    ensures forall pos :: CopyPiece(list, offset, pos) == CopyPiece(r, offset, pos)
  {
    var i, j := ByOffset(list, offset), ByOffset(r, offset);
    assert !(i < j) && !(j < i);
  }

  /** Releasing the chunks before `offsets[i]` changes neither its fullness nor the data. */
  lemma FullAfterRelease(list: seq<Buffer>, offsets: seq<int>, i: nat, size: int)
    requires i < |offsets| && AllFull(list, offsets[..i], size)
    ensures var r := ReleaseAll(list, offsets[..i]);
      && SameData(list, r)
      && (IsFull(r, offsets[i], size) <==> IsFull(list, offsets[i], size))
      && (IsFull(r, offsets[i], size) <==> AllFull(list, offsets[..i + 1], size))
      && Release(r, offsets[i]) == ReleaseAll(list, offsets[..i + 1])
  {
    ReleaseKeepsData(list, offsets[..i]);
    SameLookup(list, ReleaseAll(list, offsets[..i]), offsets[i]);
    assert offsets[..i + 1] == offsets[..i] + [offsets[i]];
    assert offsets[..i + 1][..i] == offsets[..i];
    assert offsets[..i + 1][i] == offsets[i];
    assert forall j :: 0 <= j < i ==> offsets[..i + 1][j] == offsets[..i][j];
  }

  lemma {:induction false} SameChunkBytes(list: seq<Buffer>, r: seq<Buffer>, offset: int, k: nat)
    requires SameData(list, r)
    ensures ChunkBytes(list, offset, k) == ChunkBytes(r, offset, k)
  {
    if k == 0 {
    } else {
      SameLookup(list, r, offset);
      SameChunkBytes(list, r, offset, k - 1);
    }
  }

  lemma {:induction false} SameFileBytes(list: seq<Buffer>, r: seq<Buffer>, offsets: seq<int>, n: nat)
    requires SameData(list, r)
    ensures FileBytes(list, offsets, n) == FileBytes(r, offsets, n)
  {
    if offsets == [] {
    } else {
      SameChunkBytes(list, r, offsets[|offsets| - 1], n);
      SameFileBytes(list, r, offsets[..|offsets| - 1], n);
    }
  }

  class Manager {
    var init: bool
    var offsets: seq<int>

    constructor (offsets: seq<int>)
      ensures this.init && this.offsets == offsets
    {
      this.init := true;
      this.offsets := offsets;
    }

    static method ReleaseIfFull(buffers: RecvList, offset: int, size: int) returns (released: bool)
      requires buffers.Valid()
      modifies buffers.list
      ensures buffers.Valid() && released == IsFull(old(buffers.View()), offset, size)
      ensures buffers.View() == if released then Release(old(buffers.View()), offset) else old(buffers.View())
    {
      var code := buffers.IsBufferFull(offset, size);
      released := code == 1;
      if released {
        buffers.ReleaseBuffer(offset);
      }
    }

    /** Release finished chunks in order, up to the first unfinished one. */
    static method ReleaseFull(buffers: RecvList, offsets: seq<int>, size: int) returns (full: bool)
      requires buffers.Valid()
      modifies buffers.list
      ensures buffers.Valid() && full == AllFull(old(buffers.View()), offsets, size)
      ensures SameData(old(buffers.View()), buffers.View())
      ensures buffers.View()
           == ReleaseAll(old(buffers.View()), offsets[..FullPrefix(old(buffers.View()), offsets, size)])
    {
      ghost var before := buffers.View();
      var i := 0;
      while i < |offsets|
        invariant 0 <= i <= |offsets| && buffers.Valid()
        invariant buffers.View() == ReleaseAll(before, offsets[..i])
        invariant AllFull(before, offsets[..i], size)
      {
        FullAfterRelease(before, offsets, i, size);
        var released := ReleaseIfFull(buffers, offsets[i], size);
        if !released {
          StoppedAt(before, offsets, size, i);
          return false;
        }
        i := i + 1;
      }
      StoppedAt(before, offsets, size, i);
      return true;
    }

    method WriteChunk(buffers: RecvList, offset: int) returns (bytes: seq<byte>)
      requires buffers.Valid()
      ensures bytes == ChunkBytes(buffers.View(), offset, buffers.n)
    {
      ghost var list := buffers.View();
      bytes := [];
      var j := 0;
      while j < buffers.n
        invariant 0 <= j <= buffers.n && buffers.View() == list
        invariant bytes == ChunkBytes(list, offset, j)
      {
        var piece := buffers.CopyChunkData(offset, j);
        bytes := bytes + piece;
        j := j + 1;
      }
    }

    method WriteFile(buffers: RecvList) returns (file: seq<byte>)
      requires buffers.Valid()
      ensures file == FileBytes(buffers.View(), offsets, buffers.n)
    {
      ghost var list := buffers.View();
      file := [];
      var i := 0;
      while i < |offsets|
        invariant 0 <= i <= |offsets| && buffers.View() == list
        invariant file == FileBytes(list, offsets[..i], buffers.n)
      {
        assert offsets[..i + 1][..i] == offsets[..i];
        var bytes := WriteChunk(buffers, offsets[i]);
        file := file + bytes;
        i := i + 1;
      }
      assert offsets[..i] == offsets;
    }

    /** -2 without a request, -1 when a chunk is missing, 1 with the finished file. */
    method Check(buffers: RecvList, size: int) returns (code: int, file: seq<byte>)
      requires buffers.Valid()
      modifies this`init, buffers.list
      ensures buffers.Valid() && SameData(old(buffers.View()), buffers.View())
      ensures !old(init) ==> code == -2 && buffers.View() == old(buffers.View()) && !init && file == []
      ensures old(init) ==>
        var done := AllFull(old(buffers.View()), offsets, size);
        && code == (if done then 1 else -1)
        && init == !done
        && buffers.View() == ReleaseAll(old(buffers.View()), offsets[..FullPrefix(old(buffers.View()), offsets, size)])
        && file == if done then FileBytes(old(buffers.View()), offsets, buffers.n) else []
    {
      ghost var before := buffers.View();
      if !init {
        return -2, [];
      }
      var full := ReleaseFull(buffers, offsets, size);
      if !full {
        return -1, [];
      }
      file := WriteFile(buffers);
      SameFileBytes(before, buffers.View(), offsets, buffers.n);
      init := false;
      code := 1;
    }
  }

  // ---------------------------------------------------------------- the file is what was sent

  ghost function Contents(chunks: seq<Chunk>): seq<byte> {
    if chunks == [] then [] else Contents(chunks[..|chunks| - 1]) + chunks[|chunks| - 1].content
  }

  /** `b` is the buffer of a transfer of `c`. */
  ghost predicate HeldFor(b: Buffer, c: Chunk)
    requires c.Valid()
  {
    exists w :: Reachable(c, w) && Holds(b, w)
  }

  /**
   * When the buffers of a chunk come from transfers of it, the chunk is full exactly when there is one and no
   * piece is missing in any of them, whatever the buffers of other chunks hold.
   */
  lemma FullExactly(list: seq<Buffer>, offset: int, c: Chunk)
    requires c.Valid()
    requires forall j :: 0 <= j < |list| && list[j].offset == offset ==> HeldFor(list[j], c)
    ensures IsFull(list, offset, c.n * c.p)
       <==> && (exists j :: 0 <= j < |list| && list[j].offset == offset)
            && forall j :: 0 <= j < |list| && list[j].offset == offset ==> AllPresent(list[j].pieces)
  {
    forall j | 0 <= j < |list| && list[j].offset == offset
      ensures list[j].total == c.n * c.p <==> AllPresent(list[j].pieces)
    {
      var w :| Reachable(c, w) && Holds(list[j], w);
      FullMeansAll(c, w);
    }
  }

  lemma PrefixGrows(content: seq<byte>, m: nat, p: nat)
    requires m + p <= |content|
    ensures content[..m + p] == content[..m] + content[m..m + p]
  {
  }

  lemma OnePieceMore(list: seq<Buffer>, offset: int, c: Chunk, j: nat, k: nat, from: int, to: int)
    requires c.Valid() && j < c.n && k == j + 1 && from == j * c.p && to == k * c.p
    requires 0 <= from <= |c.content| && ChunkBytes(list, offset, j) == c.content[..from]
    requires CopyPiece(list, offset, j) == c.Slice(j)
    ensures 0 <= to <= |c.content| && ChunkBytes(list, offset, k) == c.content[..to]
  {
    c.SliceBounds(j);
    PrefixGrows(c.content, from, c.p);
  }

  /** The first `k` pieces are the first `m == k * p` bytes. */
  lemma {:induction false} ChunkBytesAre(list: seq<Buffer>, offset: int, c: Chunk, k: nat) returns (m: int)
    requires c.Valid() && k <= c.n
    requires forall j :: 0 <= j < c.n ==> CopyPiece(list, offset, j) == c.Slice(j)
    ensures m == k * c.p && 0 <= m <= |c.content| && ChunkBytes(list, offset, k) == c.content[..m]
  {
    m := k * c.p;
    if k == 0 {
    } else {
      var j := k - 1;
      var from := ChunkBytesAre(list, offset, c, j);
      OnePieceMore(list, offset, c, j, k, from, m);
    }
  }

  /** What is written for a piece: the sender's bytes, or nothing while it is missing. */
  lemma PieceCopied(list: seq<Buffer>, offset: int, c: Chunk, w: World, pos: int)
    requires ReceivedBy(list, offset, c, w) && 0 <= pos < c.n
    ensures |w.rcv.pieces| == c.n
    ensures CopyPiece(list, offset, pos) == if w.rcv.pieces[pos].Stored? then c.Slice(pos) else []
  {
    Integrity(c, w);
  }

  lemma NothingCopied(list: seq<Buffer>, offset: int, pos: int)
    requires forall j :: 0 <= j < |list| ==> list[j].offset != offset
    ensures CopyPiece(list, offset, pos) == []
  {
  }

  /** If one buffer is the chunk's only one, the chunk is full exactly when the receiver has every piece. */
  lemma ReceivedFull(list: seq<Buffer>, offset: int, c: Chunk, w: World)
    requires ReceivedBy(list, offset, c, w)
    ensures IsFull(list, offset, c.n * c.p) <==> AllPresent(w.rcv.pieces)
  {
    assert HeldFor(list[ByOffset(list, offset)], c);
    FullExactly(list, offset, c);
  }

  lemma FullChunkIsContent(list: seq<Buffer>, offset: int, c: Chunk, w: World)
    requires ReceivedBy(list, offset, c, w) && AllPresent(w.rcv.pieces)
    ensures ChunkBytes(list, offset, c.n) == c.content
  {
    Integrity(c, w);
    forall j | 0 <= j < c.n ensures CopyPiece(list, offset, j) == c.Slice(j) { PieceCopied(list, offset, c, w, j); }
    var m := ChunkBytesAre(list, offset, c, c.n);
    assert c.content[..m] == c.content;
  }

  lemma {:induction false} FileIsContents(list: seq<Buffer>, offsets: seq<int>, chunks: seq<Chunk>, n: nat)
    requires |offsets| == |chunks|
    requires forall i :: 0 <= i < |offsets| ==> ChunkBytes(list, offsets[i], n) == chunks[i].content
    ensures FileBytes(list, offsets, n) == Contents(chunks)
  {
    if offsets == [] {
    } else {
      FileIsContents(list, offsets[..|offsets| - 1], chunks[..|offsets| - 1], n);
    }
  }

  /** Some history of deliveries and other uses of the list brings a transfer of `c` to state `w`. */
  ghost predicate Arises(list: seq<Buffer>, offset: int, c: Chunk, w: World)
    requires c.Valid()
  {
    exists before, socket, prev, count, hs :: Outcome(c, before, socket, offset, prev, count, hs, Scene(list, w))
  }

  lemma ArisenIsReceived(list: seq<Buffer>, offset: int, c: Chunk, w: World)
    requires c.Valid() && Arises(list, offset, c, w)
    ensures ReceivedBy(list, offset, c, w)
  {
    var before, socket, prev, count, hs :| Outcome(c, before, socket, offset, prev, count, hs, Scene(list, w));
    DeliveriesArrive(c, before, socket, offset, prev, count, hs, Scene(list, w));
  }

  /**
   * When each requested chunk has been received by a transfer, the check reports 1 exactly when every transfer has
   * brought all its pieces, and the file is then the senders' contents in requested order, whatever the network did.
   */
  lemma AssembledFile(list: seq<Buffer>, offsets: seq<int>, chunks: seq<Chunk>, ws: seq<World>, n: nat, p: nat)
    requires |offsets| == |chunks| == |ws|
    requires forall i :: 0 <= i < |offsets| ==> chunks[i].Valid() && chunks[i].n == n && chunks[i].p == p
    requires forall i :: 0 <= i < |offsets| ==> Arises(list, offsets[i], chunks[i], ws[i])
    ensures AllFull(list, offsets, n * p) <==> forall i :: 0 <= i < |offsets| ==> AllPresent(ws[i].rcv.pieces)
    ensures AllFull(list, offsets, n * p) ==> FileBytes(list, offsets, n) == Contents(chunks)
  {
    forall i | 0 <= i < |offsets|
      ensures IsFull(list, offsets[i], n * p) <==> AllPresent(ws[i].rcv.pieces)
      ensures AllPresent(ws[i].rcv.pieces) ==> ChunkBytes(list, offsets[i], n) == chunks[i].content
    {
      ArisenIsReceived(list, offsets[i], chunks[i], ws[i]);
      ReceivedFull(list, offsets[i], chunks[i], ws[i]);
      if AllPresent(ws[i].rcv.pieces) { FullChunkIsContent(list, offsets[i], chunks[i], ws[i]); }
    }
    if AllFull(list, offsets, n * p) { FileIsContents(list, offsets, chunks, n); }
  }
}
