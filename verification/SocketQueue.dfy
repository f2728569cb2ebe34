/** The queue of accepted sockets between the master thread, which produces, and
    the worker threads, which consume. Every method is one locked region. */
module SocketQueue {

  /** MGSQLEN. */
  const SIZE := 20

  type Socket = int

  /** The sockets in places tail to head, round the ring. */
  function Window(ring: seq<Socket>, tail: nat, head: nat): (s: seq<Socket>)
    requires |ring| == SIZE && tail <= head
    ensures |s| == head - tail
    ensures forall k :: 0 <= k < |s| ==> s[k] == ring[(tail + k) % SIZE]
  {
    seq(head - tail, k requires 0 <= k < head - tail => ring[(tail + k) % SIZE])
  }

  lemma WindowGrows(ring: seq<Socket>, tail: nat, head: nat, sp: Socket)
    requires |ring| == SIZE && tail <= head < tail + SIZE
    ensures Window(ring[head % SIZE := sp], tail, head + 1) == Window(ring, tail, head) + [sp]
  {
    var w := Window(ring[head % SIZE := sp], tail, head + 1);
    forall k | 0 <= k < head - tail ensures w[k] == Window(ring, tail, head)[k] {
      assert (tail + k) % SIZE != head % SIZE;
    }
  }

  lemma WindowShrinks(ring: seq<Socket>, tail: nat, head: nat)
    requires |ring| == SIZE && tail < head
    ensures Window(ring, tail, head) == [ring[tail % SIZE]] + Window(ring, tail + 1, head)
  {
  }

  lemma WindowWraps(ring: seq<Socket>, tail: nat, head: nat)
    requires |ring| == SIZE && SIZE <= tail <= head
    ensures Window(ring, tail - SIZE, head - SIZE) == Window(ring, tail, head)
  {
  }

  class Queue {
    const queue: array<Socket>
    var head: int
    var tail: int
    /** All sockets put in, and all taken out, in order. */
    ghost var produced: seq<Socket>
    ghost var consumed: seq<Socket>

    ghost predicate Valid()
      reads this, queue
    {
      && queue.Length == SIZE && 0 <= tail <= head && head - tail <= SIZE && tail <= SIZE
      && produced == consumed + Contents()
    }

    ghost function Contents(): (s: seq<Socket>)
      requires queue.Length == SIZE && 0 <= tail <= head
      reads this, queue
      ensures |s| == head - tail
    {
      Window(queue[..], tail, head)
    }

    constructor ()
      ensures Valid() && produced == [] && consumed == [] && fresh(queue)
    {
      queue := new Socket[SIZE];
      head, tail := 0, 0;
      produced, consumed := [], [];
    }

    /** The guard of produce_socket's wait. */
    predicate Full()
      reads this
    {
      head - tail >= SIZE
    }

    /** produce_socket, once its wait is over: there is room, or the server stops
        and a socket that does not fit is dropped. */
    method Produce(sp: Socket, stopFlag: bool)
      requires Valid() && (stopFlag || !Full())
      modifies this, queue
      ensures Valid() && consumed == old(consumed)
      ensures Contents() == if old(Full()) then old(Contents()) else old(Contents()) + [sp]
      ensures produced == if old(Full()) then old(produced) else old(produced) + [sp]
    {
      hide Window;
      if head - tail < SIZE {
        WindowGrows(queue[..], tail, head, sp);
        queue[head % SIZE] := sp;
        head := head + 1;
        produced := produced + [sp];
        assert queue[..] == old(queue[..])[old(head) % SIZE := sp];
      }
    }

    /** consume_socket, once its wait is over: there is a socket, or the server
        stops. */
    method Consume(stopFlag: bool) returns (sp: Socket, ok: bool)
      requires Valid() && (stopFlag || head != tail)
      modifies this
      ensures Valid() && produced == old(produced) && (ok <==> !stopFlag)
      ensures old(Contents()) == [] ==> Contents() == [] && consumed == old(consumed)
      ensures old(Contents()) != [] ==>
                && sp == old(Contents())[0] && Contents() == old(Contents())[1..]
                && consumed == old(consumed) + [sp]
    {
      hide Window;
      sp := 0;
      if head > tail {
        ghost var before := Contents();
        WindowShrinks(queue[..], tail, head);
        sp := queue[tail % SIZE];
        tail := tail + 1;
        consumed := consumed + [sp];
        while tail > SIZE
          invariant 0 < tail <= head && head - tail == |before| - 1 && tail <= SIZE + 1
          invariant [sp] + Contents() == before && produced == old(produced) && consumed == old(consumed) + [sp]
          decreases tail
        {
          WindowWraps(queue[..], tail, head);
          tail := tail - SIZE;
          head := head - SIZE;
        }
      }
      ok := !stopFlag;
    }
  }
}
