/** The WebSocket reader: a queue of bytes in the connection's buffer, filled by
    reads of any size, from which frames are delivered to a data handler. */
module WebSocketReader {
  import opened Bytes
  import opened WebSocketFrames

  const CONNECTION_CLOSE := 8
  const STACK_BUFFER := 4096

  // ---------- Frames at the front of a stream ----------

  function MaskLen(s: seq<byte>): (n: nat)
    requires |s| >= 2
    ensures n == 0 || n == 4
  {
    if s[1] >= 128 then 4 else 0
  }

  function ExtensionLen(s: seq<byte>): (n: nat)
    requires |s| >= 2
    ensures n <= 8
  {
    if s[1] % 128 < 126 then 0 else if s[1] % 128 == 126 then 2 else 8
  }

  function HeadLen(s: seq<byte>): nat
    requires |s| >= 2
  {
    2 + ExtensionLen(s) + MaskLen(s)
  }

  predicate HasHead(s: seq<byte>) {
    |s| >= 2 && |s| >= HeadLen(s)
  }

  function PayloadLen(s: seq<byte>): nat
    requires HasHead(s)
  {
    if s[1] % 128 < 126 then s[1] % 128 else FromBigEndian(s[2..2 + ExtensionLen(s)])
  }

  function FrameLen(s: seq<byte>): nat
    requires HasHead(s)
  {
    HeadLen(s) + PayloadLen(s)
  }

  function MaskOf(s: seq<byte>): (mask: seq<byte>)
    requires HasHead(s)
    ensures |mask| == 4
  {
    if MaskLen(s) == 4 then s[HeadLen(s) - 4..HeadLen(s)] else [0, 0, 0, 0]
  }

  function FrameMessage(s: seq<byte>): Message
    requires HasHead(s) && FrameLen(s) <= |s|
  {
    Message(s[0], Masked(s[HeadLen(s)..FrameLen(s)], MaskOf(s)))
  }

  /** What the reader runs with: room in the connection's buffer, the largest
      payload that memory can be allocated for, and the data handler, which sees
      every message so far and answers whether to go on. */
  datatype Setting = Setting(capacity: nat, memory: nat, accept: seq<Message> -> bool) {
    predicate Fits(n: nat) {
      n <= STACK_BUFFER || n <= memory
    }

    predicate Stops(history: seq<Message>)
      requires |history| > 0
    {
      !accept(history) || history[|history| - 1].mop % 16 == CONNECTION_CLOSE
    }

    predicate Takes(s: seq<byte>) {
      HasHead(s) && HeadLen(s) <= capacity && Fits(PayloadLen(s)) && FrameLen(s) <= |s|
    }
  }

  datatype Outcome = Outcome(delivered: seq<Message>, closed: bool, rest: seq<byte>)

  /** Frame by frame, until the handler refuses, a close frame has been
      delivered, or no further frame can be taken. */
  function Deliver(s: seq<byte>, history: seq<Message>, setting: Setting): Outcome
    decreases |s|
  {
    if setting.Takes(s) then
      var history' := history + [FrameMessage(s)];
      if setting.Stops(history') then Outcome(history', true, s[FrameLen(s)..])
      else Deliver(s[FrameLen(s)..], history', setting)
    else Outcome(history, false, s)
  }

  /** More bytes do not change a head. */
  lemma HeadStays(s: seq<byte>, more: seq<byte>)
    requires HasHead(s)
    ensures HasHead(s + more) && HeadLen(s + more) == HeadLen(s)
    ensures PayloadLen(s + more) == PayloadLen(s) && MaskOf(s + more) == MaskOf(s)
  {
    var t := s + more;
    assert t[0] == s[0] && t[1] == s[1];
    assert t[2..2 + ExtensionLen(s)] == s[2..2 + ExtensionLen(s)];
    if MaskLen(s) == 4 {
      assert t[HeadLen(s) - 4..HeadLen(s)] == s[HeadLen(s) - 4..HeadLen(s)];
    }
  }

  // ---------- The reader ----------

  class Connection {
    const buf: array<byte>
    const requestLen: nat
    const setting: Setting
    var dataLen: nat
    /** The bytes still to come from the peer until the connection fails. */
    var incoming: seq<byte>
    /** The messages given to the handler. */
    var delivered: seq<Message>

    ghost predicate Valid()
      reads this
    {
      requestLen <= dataLen <= buf.Length && setting.capacity == buf.Length - requestLen
      && setting.memory < 0x8000_0000
    }

    function Queue(): seq<byte>
      requires requestLen <= dataLen <= buf.Length
      reads this, buf
    {
      buf[requestLen..dataLen]
    }

    ghost function Stream(): seq<byte>
      requires Valid()
      reads this, buf
    {
      Queue() + incoming
    }

    constructor (request: seq<byte>, queued: seq<byte>, room: nat, incoming: seq<byte>, memory: nat,
                 accept: seq<Message> -> bool)
      requires |queued| <= room && memory < 0x8000_0000
      ensures Valid() && fresh(buf) && Stream() == queued + incoming && delivered == []
      ensures buf[..requestLen] == request && setting == Setting(room, memory, accept)
    {
      var start := request + queued;
      var buf := new byte[|request| + room](i => if 0 <= i < |start| then start[i] else 0);
      this.buf := buf;
      requestLen, dataLen := |request|, |request| + |queued|;
      this.incoming, delivered := incoming, [];
      setting := Setting(room, memory, accept);
      new;
      assert buf[..|start|] == start;
      assert buf[..|request|] == buf[..|start|][..|request|];
      assert buf[|request|..|start|] == buf[..|start|][|request|..];
    }

    /** pull: some of the incoming bytes, at least one while there are any. */
    method Pull(a: array<byte>, at: nat, max: nat) returns (n: nat)
      requires at + max <= a.Length
      modifies `incoming, a
      ensures n <= max && n <= |old(incoming)| && incoming == old(incoming)[n..]
      ensures n == 0 <==> max == 0 || old(incoming) == []
      ensures a[..at] == old(a[..at]) && a[at..at + n] == old(incoming)[..n]
      ensures a[at + n..] == old(a[at + n..])
    {
      if max == 0 || incoming == [] {
        return 0;
      }
      n :| 1 <= n <= max && n <= |incoming|;
      Store(a, at, incoming[..n]);
      incoming := incoming[n..];
    }

    /** The head of the first frame in the queue; a zero headerLen says that
        the queue is too short. */
    method ReadHead() returns (headerLen: nat, maskLen: nat, payloadLen: nat)
      requires Valid()
      ensures HasHead(Queue()) <==> 0 < headerLen <= |Queue()|
      ensures HasHead(Queue()) ==> headerLen == HeadLen(Queue()) && maskLen == MaskLen(Queue())
                                   && payloadLen == PayloadLen(Queue())
    {
      ghost var queue := Queue();
      headerLen, maskLen, payloadLen := 0, 0, 0;
      var bodyLen := dataLen - requestLen;
      if bodyLen >= 2 {
        var len := buf[requestLen + 1] % 128;
        maskLen := if buf[requestLen + 1] >= 128 then 4 else 0;
        if len < 126 && bodyLen >= maskLen {
          payloadLen := len;
          headerLen := 2 + maskLen;
        } else if len == 126 && bodyLen >= 4 + maskLen {
          headerLen := 4 + maskLen;
          payloadLen := Net16(buf[requestLen + 2], buf[requestLen + 3]);
          Net16Value(queue[2..4]);
        } else if bodyLen >= 10 + maskLen {
          headerLen := 10 + maskLen;
          payloadLen :=
            Net32(buf[requestLen + 2], buf[requestLen + 3], buf[requestLen + 4], buf[requestLen + 5]) * 0x1_0000_0000
            + Net32(buf[requestLen + 6], buf[requestLen + 7], buf[requestLen + 8], buf[requestLen + 9]);
          Net64Value(queue[2..10]);
        }
      }
    }

    /** The overflow case: the rest of a payload is pulled straight into data. */
    method PullRest(data: array<byte>, have: nat) returns (ok: bool)
      requires have <= data.Length
      modifies `incoming, data
      ensures ok <==> data.Length <= have + |old(incoming)|
      ensures ok ==> data[..] + incoming == old(data[..have]) + old(incoming)
    {
      var len := have;
      ok := true;
      ghost var all := data[..have] + incoming;
      while len < data.Length && ok
        invariant len <= data.Length && (ok || (len < data.Length && incoming == []))
        invariant data[..len] + incoming == all
        decreases data.Length - len, ok
      {
        ghost var before, came := data[..len], incoming;
        var n := Pull(data, len, data.Length - len);
        if n <= 0 {
          ok := false;
        } else {
          Regroup(before, came, n);
          assert data[..len + n] == data[..len] + data[len..len + n];
          len := len + n;
        }
      }
      assert ok ==> data[..len] == data[..];
    }

    /** Moving the queue forward, in place. */
    method Advance(len: nat)
      requires Valid() && len <= |Queue()|
      modifies `dataLen, buf
      ensures Valid() && buf[..requestLen] == old(buf[..requestLen]) && Queue() == old(Queue())[len..]
    {
      Store(buf, requestLen, buf[requestLen + len..dataLen]);
      dataLen := dataLen - len;
    }

    /** The payload of the first frame, from the queue and, if it is not all
        there, from the peer; the queue moves on. */
    method TakePayload(headerLen: nat, payloadLen: nat) returns (data: array<byte>, ok: bool)
      requires Valid() && headerLen <= |Queue()|
      modifies this`dataLen, this`incoming, buf
      ensures Valid() && fresh(data) && buf[..requestLen] == old(buf[..requestLen])
      ensures ok <==> headerLen + payloadLen <= |old(Stream())|
      ensures ok ==> data[..] == old(Stream())[headerLen..headerLen + payloadLen]
                     && Stream() == old(Stream())[headerLen + payloadLen..]
    {
      var bodyLen := dataLen - requestLen;
      ghost var queue, came := Queue(), incoming;
      if payloadLen + headerLen > bodyLen {
        data := Allocate(payloadLen, Queue()[headerLen..]);
        assert data[..bodyLen - headerLen] == queue[headerLen..];
        ok := PullRest(data, bodyLen - headerLen);
        if ok {
          FromQueue(queue, came, headerLen, bodyLen);
          SplitAt(queue + came, headerLen, data[..], incoming);
          dataLen := requestLen;
          assert Queue() == [] && [] + incoming == incoming;
        }
      } else {
        ok := true;
        var len := payloadLen + headerLen;
        data := Allocate(payloadLen, Queue()[headerLen..len]);
        assert data[..payloadLen] == data[..];
        assert data[..] == queue[headerLen..len];
        Advance(len);
        FromQueue(queue, came, headerLen, len);
      }
    }

    /** The first frame of the queue, whose head is there, is handed to the
        handler; read_websocket leaves its loop if the answer is not Next. */
    method TakeFrame(headerLen: nat, maskLen: nat, payloadLen: nat) returns (next: Next)
      requires Valid() && HasHead(Queue()) && headerLen == HeadLen(Queue()) && maskLen == MaskLen(Queue())
      requires payloadLen == PayloadLen(Queue())
      modifies this`dataLen, this`incoming, this`delivered, buf
      ensures Valid() && buf[..requestLen] == old(buf[..requestLen])
      ensures var s := old(Stream());
              if !setting.Takes(s) then next == Fail && delivered == old(delivered)
              else
                && delivered == old(delivered) + [FrameMessage(s)] && Stream() == s[FrameLen(s)..]
                && next == if setting.Stops(delivered) then Close else Continue
    {
      hide FromBigEndian, Masked, HasHead, HeadLen, MaskLen, MaskOf, PayloadLen;
      ghost var queue, stream := Queue(), Stream();
      HeadStays(queue, incoming);
      HeadBounds(queue);
      if payloadLen > STACK_BUFFER && payloadLen > setting.memory {
        return Fail;
      }
      var mask: seq<byte> :=
        if maskLen > 0 then buf[requestLen + headerLen - maskLen..requestLen + headerLen] else [0, 0, 0, 0];
      var mop := buf[requestLen];
      assert mop == stream[0] && (maskLen > 0 ==> mask == queue[headerLen - maskLen..headerLen]);
      var data, ok := TakePayload(headerLen, payloadLen);
      if !ok {
        return Fail;
      }
      if maskLen > 0 {
        Unmask(data, mask);
      } else {
        MaskZero(data[..]);
      }
      delivered := delivered + [Message(mop, data[..])];
      next := if !setting.accept(delivered) || mop % 16 == CONNECTION_CLOSE then Close else Continue;
    }

    /** More bytes for the queue. */
    method Fill() returns (n: nat)
      requires Valid()
      modifies this`dataLen, this`incoming, buf
      ensures Valid() && buf[..requestLen] == old(buf[..requestLen])
      ensures Stream() == old(Stream()) && n <= |old(incoming)| && incoming == old(incoming)[n..]
      ensures n == 0 <==> |old(Queue())| == setting.capacity || old(incoming) == []
    {
      ghost var queue, came := Queue(), incoming;
      n := Pull(buf, dataLen, buf.Length - dataLen);
      assert buf[..requestLen] == buf[..dataLen][..requestLen];
      assert buf[requestLen..dataLen] == buf[..dataLen][requestLen..];
      dataLen := dataLen + n;
      Regroup(queue, came, n);
      assert buf[requestLen..dataLen] == buf[requestLen..dataLen - n] + buf[dataLen - n..dataLen];
    }

    /** read_websocket: whatever sizes the reads have, the outcome is Deliver's. */
    method Read() returns (closed: bool)
      requires Valid()
      modifies this`dataLen, this`incoming, this`delivered, buf
      ensures Valid() && buf[..requestLen] == old(buf[..requestLen])
      ensures var outcome := Deliver(old(Stream()), old(delivered), setting);
              && delivered == outcome.delivered && closed == outcome.closed
              && (closed ==> Stream() == outcome.rest)
    {
      hide HasHead, HeadLen, PayloadLen, MaskLen, FrameLen, FrameMessage, MaskOf, Setting.Takes, Setting.Stops;
      ghost var goal := Deliver(Stream(), delivered, setting);
      while true
        invariant Valid() && buf[..requestLen] == old(buf[..requestLen])
        invariant Deliver(Stream(), delivered, setting) == goal
        decreases |Stream()|, |incoming|
      {
        ghost var stream, queue := Stream(), Queue();
        var headerLen, maskLen, payloadLen := ReadHead();
        if headerLen > 0 && dataLen - requestLen >= headerLen {
          TakenHead(stream, setting);
          var next := TakeFrame(headerLen, maskLen, payloadLen);
          if next != Continue {
            return next == Close;
          }
        } else {
          var n := Fill();
          if n <= 0 {
            NoFrame(queue, stream, setting);
            return false;
          }
        }
      }
    }
  }

  /** A buffer for a payload that starts with the given bytes. */
  method Allocate(n: nat, s: seq<byte>) returns (data: array<byte>)
    requires |s| <= n
    ensures fresh(data) && data.Length == n && data[..|s|] == s
  {
    data := new byte[n];
    Store(data, 0, s);
  }

  datatype Next = Continue | Close | Fail

  /** A queue that is full, or all there is, and has no whole head. */
  lemma NoFrame(queue: seq<byte>, stream: seq<byte>, setting: Setting)
    requires queue <= stream && !HasHead(queue) && (|queue| == setting.capacity || queue == stream)
    ensures !setting.Takes(stream)
  {
    if |queue| >= 2 {
      assert queue[1] == stream[1];
    }
  }

  lemma TakenHead(s: seq<byte>, setting: Setting)
    ensures setting.Takes(s) ==> HasHead(s) && 2 <= FrameLen(s) <= |s|
  {
  }

  lemma HeadBounds(s: seq<byte>)
    requires HasHead(s)
    ensures 0 <= MaskLen(s) <= HeadLen(s) - 2 && HeadLen(s) <= |s|
    ensures MaskOf(s) == if MaskLen(s) > 0 then s[HeadLen(s) - MaskLen(s)..HeadLen(s)] else [0, 0, 0, 0]
  {
  }

  lemma FromQueue(queue: seq<byte>, incoming: seq<byte>, lo: nat, hi: nat)
    requires lo <= hi <= |queue|
    ensures (queue + incoming)[lo..hi] == queue[lo..hi]
    ensures (queue + incoming)[lo..] == queue[lo..] + incoming && (queue + incoming)[hi..] == queue[hi..] + incoming
  {
  }

  lemma SplitAt(s: seq<byte>, at: nat, a: seq<byte>, b: seq<byte>)
    requires at <= |s| && s[at..] == a + b
    ensures at + |a| <= |s| && s[at..at + |a|] == a && s[at + |a|..] == b
  {
    assert s[at..at + |a|] == s[at..][..|a|];
    assert s[at + |a|..] == s[at..][|a|..];
  }

  lemma Regroup(a: seq<byte>, b: seq<byte>, n: nat)
    requires n <= |b|
    ensures a + b[..n] + b[n..] == a + b
  {
  }

  /** Applying the mask in place. */
  method Unmask(data: array<byte>, mask: seq<byte>)
    requires |mask| == 4
    modifies data
    ensures data[..] == Masked(old(data[..]), mask)
  {
    var i := 0;
    while i < data.Length
      invariant 0 <= i <= data.Length
      invariant forall k :: 0 <= k < i ==> data[k] == Masked(old(data[..]), mask)[k]
      invariant data[i..] == old(data[i..])
    {
      data[i] := XorByte(data[i], mask[i % 4]);
      i := i + 1;
    }
  }

  lemma Net16Value(s: seq<byte>)
    requires |s| == 2
    ensures FromBigEndian(s) == Net16(s[0], s[1])
  {
    NetStep(s, 0);
    NetStep(s, 1);
    assert s[..2] == s && FromBigEndian(s[..0]) == 0;
  }

  lemma NetStep(s: seq<byte>, n: nat)
    requires n < |s|
    ensures FromBigEndian(s[..n + 1]) == FromBigEndian(s[..n]) * 256 + s[n]
  {
    assert s[..n + 1][..n] == s[..n];
  }

  lemma Net64Value(s: seq<byte>)
    requires |s| == 8
    ensures FromBigEndian(s) == Net32(s[0], s[1], s[2], s[3]) * 0x1_0000_0000 + Net32(s[4], s[5], s[6], s[7])
  {
    assert s[..8] == s && FromBigEndian(s[..0]) == 0;
    hide FromBigEndian;
    Net32Step(s, 0);
    Net32Step(s, 4);
  }

  lemma Net32Step(s: seq<byte>, n: nat)
    requires n + 4 <= |s|
    ensures FromBigEndian(s[..n + 4])
         == FromBigEndian(s[..n]) * 0x1_0000_0000 + Net32(s[n], s[n + 1], s[n + 2], s[n + 3])
  {
    hide FromBigEndian;
    NetStep(s, n);
    NetStep(s, n + 1);
    NetStep(s, n + 2);
    NetStep(s, n + 3);
  }
}
