/** The receiver's routines as they run: buffers updated in place, found by walking the list. */
module ReceiverImpl {
  import opened Collections
  import opened FlowControl
  import opened ReceiveBuffers
  import opened Wire

  class RecvBuffer {
    const socket: int
    const offset: int
    const chunks: array<Piece>
    var busy: bool
    var expected: int
    var total: int

    ghost function View(): Buffer
      reads this, chunks
    {
      Buffer(socket, offset, busy, expected, total, chunks[..])
    }

    constructor (n: int, socket: int, offset: int)
      requires 0 <= n
      ensures View() == InitBuffer(n, socket, offset) && fresh(chunks) && chunks.Length == n
    {
      this.socket, this.offset := socket, offset;
      busy, expected, total := true, 1, 0;
      chunks := new Piece[n](i => Missing);
      new;
      assert chunks[..] == seq(n, i => Missing);
    }

    /** Store a first copy, then acknowledge the first missing piece at or after `expected`. */
    method Receive(packet: Packet) returns (ack: Option<int>)
      requires 1 <= packet.seqNum && 0 <= expected
      modifies this, chunks
      ensures (View(), ack) == FlowControl.Receive(old(View()), packet)
    {
      if packet.seqNum > chunks.Length {
        return None;
      }
      var k := packet.seqNum - 1;
      if chunks[k].Missing? {
        chunks[k] := Stored(packet.payload);
        total := total + |packet.payload|;
      }
      ghost var stored := chunks[..];
      assert stored == Store(old(View()), k, packet.payload).pieces;
      var i := expected;
      while i < chunks.Length
        invariant 0 <= i && chunks[..] == stored
        invariant Scan(stored, i) == Scan(stored, expected)
      {
        if chunks[i].Missing? {
          break;
        }
        i := i + 1;
      }
      assert Scan(stored, i) == i;
      expected := i;
      return Some(i);
    }
  }

  class RecvList {
    const n: int
    var list: seq<RecvBuffer>

    /** Buffers and their piece arrays are all different objects. */
    ghost predicate Valid()
      reads this, list
    {
      && 0 <= n
      && (forall i :: 0 <= i < |list| ==> list[i].chunks.Length == n && 0 <= list[i].expected)
      && (forall i, j :: 0 <= i < j < |list| ==> list[i] != list[j] && list[i].chunks != list[j].chunks)
    }

    ghost function Arrays(): set<array<Piece>>
      reads this
    {
      set b | b in list :: b.chunks
    }

    ghost function View(): (r: seq<Buffer>)
      reads this, list, Arrays()
      ensures |r| == |list| && forall i :: 0 <= i < |r| ==> r[i] == list[i].View()
    {
      seq(|list|, i requires 0 <= i < |list| reads this, list, Arrays() => assert list[i] in list; list[i].View())
    }

    constructor (n: int)
      requires 0 <= n
      ensures Valid() && this.n == n && View() == []
    {
      this.n := n;
      list := [];
    }

    method InitRecvBuffer(offset: int, socket: int) returns (code: int)
      requires Valid()
      modifies this
      ensures Valid() && View() == AddBuffer(old(View()), n, socket, offset)
      ensures code == if Free(old(View()), socket, offset) then 1 else -1
    {
      ghost var before := View();
      var k := 0;
      while k < |list|
        invariant 0 <= k <= |list| && list == old(list)
        invariant forall i :: 0 <= i < k ==> !Clashes(list[i].View(), socket, offset)
      {
        if (list[k].socket == socket || list[k].offset == offset) && list[k].busy {
          assert Clashes(before[k], socket, offset);
          return -1;
        }
        k := k + 1;
      }
      assert forall i :: 0 <= i < |before| ==> !Clashes(before[i], socket, offset);
      var b := new RecvBuffer(n, socket, offset);
      list := [b] + list;
      assert View() == [b.View()] + before;
      return 1;
    }

    method RecvData(packet: Packet, socket: int) returns (ack: Option<int>, offset: Option<int>)
      requires Valid() && 1 <= packet.seqNum
      modifies list, Arrays()
      ensures Valid() && (forall b :: b in old(View()) ==> 0 <= b.expected)
      ensures View() == ReceiveFrom(old(View()), socket, packet)
      ensures var i := BySocket(old(View()), socket);
        if packet.seqNum > n || i == |list| then ack == None && offset == None
        else ack == FlowControl.Receive(old(View())[i], packet).1 && offset == Some(old(View())[i].offset)
    {
      ghost var before := View();
      ghost var i := BySocket(before, socket);
      if packet.seqNum > n {
        if i < |list| { assert before[i := FlowControl.Receive(before[i], packet).0] == before; }
        return None, None;
      }
      var k := 0;
      while k < |list|
        invariant 0 <= k <= i && View() == before
      {
        assert before[k] == list[k].View();
        if list[k].socket == socket {
          assert k == i;
          ghost var at := list[k].View();
          ack := list[k].Receive(packet);
          offset := Some(list[k].offset);
          assert View() == before[i := FlowControl.Receive(at, packet).0];
          return;
        }
        k := k + 1;
      }
      return None, None;
    }

    method ReleaseBuffer(offset: int)
      requires Valid()
      modifies list
      ensures Valid() && View() == Release(old(View()), offset)
    {
      ghost var before := View();
      var k := 0;
      while k < |list|
        invariant 0 <= k <= |list| && Valid()
        invariant forall j :: 0 <= j < |list| ==>
                    list[j].View()
                    == if j < k && before[j].offset == offset then before[j].(busy := false) else before[j]
      {
        if list[k].offset == offset {
          list[k].busy := false;
        }
        k := k + 1;
      }
      assert View() == Release(before, offset);
    }

    method IsBufferFull(offset: int, size: int) returns (code: int)
      requires Valid()
      ensures code == if IsFull(View(), offset, size) then 1 else -1
    {
      ghost var all := View();
      var find := -1;
      var k := 0;
      while k < |list|
        invariant 0 <= k <= |list|
        invariant find == if exists j :: 0 <= j < k && all[j].offset == offset then 1 else -1
        invariant forall j :: 0 <= j < k && all[j].offset == offset ==> all[j].total == size
      {
        assert all[k] == list[k].View();
        if list[k].offset == offset {
          find := 1;
          if size - list[k].total != 0 {
            return -1;
          }
        }
        k := k + 1;
      }
      return find;
    }

    method CopyChunkData(offset: int, pos: int) returns (data: seq<byte>)
      requires Valid() && 0 <= pos < n
      ensures data == CopyPiece(View(), offset, pos)
    {
      ghost var all := View();
      var k := 0;
      while k < |list|
        invariant 0 <= k <= ByOffset(all, offset)
      {
        assert all[k] == list[k].View();
        if list[k].offset == offset {
          if list[k].chunks[pos].Missing? {
            return [];
          }
          return list[k].chunks[pos].data;
        }
        k := k + 1;
      }
      return [];
    }
  }
}
