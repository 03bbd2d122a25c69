/** Reading from a connection (connection.go, ReadPacket): packets are expected in order; a gap
    is tolerated, a step back is an error. */
module Reader {
  import opened Circular
  import opened Packets
  import opened Wrappers

  class PacketReader {
    var expected: Number
    ghost var at: int

    ghost predicate Valid()
      reads this
    {
      expected == SeqNum(at)
    }

    constructor (ghost initial: int, initialSequenceNumber: Number)
      requires initialSequenceNumber == SeqNum(initial)
      ensures Valid() && at == initial
    {
      expected, at := initialSequenceNumber, initial;
    }

    method ReadPacket(p: Packet, ghost n: int) returns (r: Result<Packet>)
      requires Valid() && p.seqno == SeqNum(n) && Near(n, at)
      modifies this
      ensures Valid()
      ensures n < old(at) ==> r == Error && at == old(at)
      ensures n >= old(at) ==> r == Ok(p) && at == n + 1
      ensures at == Expect(old(at), n)
    {
      var lost := Above(p.seqno, expected, n, at);
      var back := Below(p.seqno, expected, n, at);
      if lost {
        // Packets were lost; reading goes on.
      } else if back {
        return Error;
      }
      expected := Succ(p.seqno, n);
      at := n + 1;
      return Ok(p);
    }
  }

  function Expect(at: int, n: int): int {
    if n < at then at else n + 1
  }
}
