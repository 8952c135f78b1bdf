/** What travels between two peers during one chunk transfer, and the chunk being sent. */
module Wire {

  newtype byte = x: int | 0 <= x < 256

  /** A DATA packet: sequence numbers on the wire are one more than the piece index. */
  datatype Packet = Packet(seqNum: int, payload: seq<byte>)

  datatype Message = Data(packet: Packet) | Ack(num: int)

  /** One chunk of `n` pieces of `p` bytes each (512 and 1024 in the program), sent to `peer`. */
  datatype Chunk = Chunk(n: int, p: int, content: seq<byte>, peer: int) {
    ghost predicate Valid() {
      && 1 <= n
      && 1 <= p
      && |content| == n * p
    }

    lemma SliceBounds(i: int)
      requires Valid() && 0 <= i < n
      ensures 0 <= i * p <= (i + 1) * p == i * p + p <= |content|
    {
      assert (i + 1) * p <= n * p;
    }

    /** The bytes of piece `i`. */
    ghost function Slice(i: int): (s: seq<byte>)
      requires Valid() && 0 <= i < n
      ensures |s| == p
    {
      SliceBounds(i);
      content[i * p..i * p + p]
    }

    ghost function PieceOf(i: int): Packet
      requires Valid() && 0 <= i < n
    {
      Packet(i + 1, Slice(i))
    }
  }
}
