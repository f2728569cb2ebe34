/** What the WebSocket writers write is what the reader delivers. */
module WebSocketRoundTrip {
  import opened Bytes
  import opened WebSocketFrames
  import opened WebSocketReader

  /** A message as its sender knows it; the server's key is zero. */
  datatype Written = Written(opcode: int, payload: seq<byte>, key: word)

  function Wire(ms: seq<Written>): seq<byte> {
    if ms == [] then [] else Frame(ms[0].opcode, ms[0].payload, ms[0].key) + Wire(ms[1..])
  }

  /** A message as its receiver sees it: the final bit is set, and the opcode
      keeps four bits. */
  function Seen(m: Written): Message {
    Message(0x80 + m.opcode % 16, m.payload)
  }

  function AllSeen(ms: seq<Written>): seq<Message> {
    seq(|ms|, i requires 0 <= i < |ms| => Seen(ms[i]))
  }

  lemma LengthField(n: nat)
    requires n < 0x1_0000_0000_0000_0000
    ensures n >= 126 ==> FromBigEndian(LengthExtension(n)) == n
  {
    Pow256Values();
    if n > 0xFFFF {
      BigEndianInverse(n, 8);
    } else {
      BigEndianInverse(n, 2);
    }
    hide BigEndian, FromBigEndian;
  }

  lemma FourParts(two: seq<byte>, e: seq<byte>, k: seq<byte>, tail: seq<byte>)
    requires |two| == 2
    ensures var s := two + e + k + tail;
            s[0] == two[0] && s[1] == two[1] && s[2..2 + |e|] == e && s[2 + |e|..2 + |e| + |k|] == k
  {
  }

  lemma LengthByte(n: nat, masked: bool)
    ensures var b := LengthCode(n) + (if masked then 0x80 else 0);
            b % 128 == LengthCode(n) && (b >= 128 <==> masked)
  {
  }

  lemma HeaderParts(opcode: int, n: nat, key: word, tail: seq<byte>)
    requires n < 0x1_0000_0000_0000_0000
    ensures var s, e := Header(opcode, n, key) + tail, LengthExtension(n);
            && s[0] == 0x80 + opcode % 16 && s[1] % 128 == LengthCode(n) && (s[1] >= 128 <==> key != 0)
            && s[2..2 + |e|] == e && (key != 0 ==> s[2 + |e|..6 + |e|] == WordBytes(key))
  {
    hide BigEndian, WordBytes, LengthExtension, LengthCode;
    var k: seq<byte> := if key != 0 then WordBytes(key) else [];
    FourParts(FirstTwo(opcode, n, key != 0), LengthExtension(n), k, tail);
    LengthByte(n, key != 0);
  }

  /** The reader finds in a header where it ends and how long the payload is, as the
      writer put it there. */
  lemma HeaderRead(opcode: int, n: nat, key: word, tail: seq<byte>)
    requires n < 0x1_0000_0000_0000_0000
    ensures var s := Header(opcode, n, key) + tail;
            && HasHead(s) && s[0] == 0x80 + opcode % 16 && HeadLen(s) == |Header(opcode, n, key)| <= 14
            && PayloadLen(s) == n
  {
    hide FromBigEndian, BigEndian, WordBytes;
    HeaderParts(opcode, n, key, tail);
    LengthField(n);
  }

  /** And the masking key, or none. */
  lemma MaskRead(opcode: int, n: nat, key: word, tail: seq<byte>)
    requires n < 0x1_0000_0000_0000_0000
    requires HasHead(Header(opcode, n, key) + tail)
    ensures MaskOf(Header(opcode, n, key) + tail) == WordBytes(key)
  {
    hide FromBigEndian, BigEndian, WordBytes;
    HeaderParts(opcode, n, key, tail);
    ZeroKey();
  }

  lemma ZeroKey()
    ensures WordBytes(0) == [0, 0, 0, 0]
  {
  }

  lemma FrameRead(m: Written, tail: seq<byte>)
    requires |m.payload| < 0x1_0000_0000_0000_0000
    ensures var f := Frame(m.opcode, m.payload, m.key);
            && HasHead(f + tail) && HeadLen(f + tail) <= 14 && PayloadLen(f + tail) == |m.payload|
            && FrameLen(f + tail) == |f| && (f + tail)[|f|..] == tail
            && FrameMessage(f + tail) == Seen(m)
  {
    hide Header, Masked, WordBytes, HasHead, HeadLen, PayloadLen, MaskOf, MaskLen;
    var h, p := Header(m.opcode, |m.payload|, m.key), Masked(m.payload, WordBytes(m.key));
    var f := Frame(m.opcode, m.payload, m.key);
    HeaderRead(m.opcode, |m.payload|, m.key, p + tail);
    MaskRead(m.opcode, |m.payload|, m.key, p + tail);
    assert f + tail == h + (p + tail);
    assert (f + tail)[|h|..|f|] == p;
    MaskTwice(m.payload, WordBytes(m.key));
  }

  ghost predicate Deliverable(ms: seq<Written>, setting: Setting) {
    setting.capacity >= 14
    && forall m :: m in ms ==> |m.payload| < 0x1_0000_0000_0000_0000 && setting.Fits(|m.payload|)
  }

  lemma OneFrame(m: Written, more: seq<byte>, tail: seq<byte>, history: seq<Message>, setting: Setting)
    requires Deliverable([m], setting)
    ensures var history' := history + [Seen(m)];
            Deliver(Frame(m.opcode, m.payload, m.key) + more + tail, history, setting)
            == if setting.Stops(history') then Outcome(history', true, more + tail)
               else Deliver(more + tail, history', setting)
  {
    hide Frame, HasHead, HeadLen, PayloadLen, FrameLen, FrameMessage, Seen;
    assert m in [m];
    var f := Frame(m.opcode, m.payload, m.key);
    FrameRead(m, more + tail);
    assert f + more + tail == f + (more + tail);
  }

  /** A frame with any first byte, unfinished or with reserved bits, delivers that byte
      and the unmasked payload like any other; frames of one message are not joined. */
  lemma AnyFrame(b: byte, m: Written, more: seq<byte>, history: seq<Message>, setting: Setting)
    requires Deliverable([m], setting)
    ensures var s := [b] + Frame(m.opcode, m.payload, m.key)[1..] + more;
            var history' := history + [Message(b, m.payload)];
            Deliver(s, history, setting) == if setting.Stops(history') then Outcome(history', true, more)
                                            else Deliver(more, history', setting)
  {
    hide Frame, HasHead, HeadLen, PayloadLen, FrameLen, FrameMessage, Seen, Setting.Stops;
    assert m in [m];
    var f := Frame(m.opcode, m.payload, m.key);
    FrameRead(m, more);
    FirstByteAlone(f + more, b);
    FrameStarts(m);
    assert [b] + (f + more)[1..] == [b] + f[1..] + more;
    assert ([b] + (f + more)[1..])[|f|..] == more;
    assert Seen(m).(mop := b) == Message(b, m.payload) by {
      SeenPayload(m);
    }
  }

  lemma FrameStarts(m: Written)
    ensures |Frame(m.opcode, m.payload, m.key)| >= 2
  {
  }

  lemma SeenPayload(m: Written)
    ensures Seen(m).payload == m.payload
  {
  }

  lemma FirstByteAlone(s: seq<byte>, b: byte)
    requires HasHead(s) && FrameLen(s) <= |s|
    ensures var t := [b] + s[1..];
            && |t| == |s| && HasHead(t) && HeadLen(t) == HeadLen(s) && PayloadLen(t) == PayloadLen(s)
            && FrameLen(t) == FrameLen(s) && FrameMessage(t) == FrameMessage(s).(mop := b)
  {
    hide Masked, FromBigEndian;
    var t := [b] + s[1..];
    assert t[1] == s[1] && HeadLen(s) >= 2;
    assert t[2..2 + ExtensionLen(s)] == s[2..2 + ExtensionLen(s)];
    assert t[HeadLen(s)..FrameLen(s)] == s[HeadLen(s)..FrameLen(s)];
    if MaskLen(s) == 4 {
      assert t[HeadLen(s) - 4..HeadLen(s)] == s[HeadLen(s) - 4..HeadLen(s)];
    }
  }

  /** As long as the handler goes on and no close frame is met, every message is
      delivered, in order and unchanged. */
  lemma {:induction false} WrittenIsDelivered(ms: seq<Written>, tail: seq<byte>, history: seq<Message>,
                                              setting: Setting)
    requires Deliverable(ms, setting)
    requires forall k :: 0 < k <= |ms| ==> !setting.Stops(history + AllSeen(ms[..k]))
    ensures Deliver(Wire(ms) + tail, history, setting) == Deliver(tail, history + AllSeen(ms), setting)
  {
    hide Deliver, Frame, Seen, Setting.Stops;
    if ms == [] {
      assert Wire(ms) + tail == tail && history + AllSeen(ms) == history;
    } else {
      var history' := history + [Seen(ms[0])];
      forall k | 0 <= k < |ms|
        ensures history' + AllSeen(ms[1..][..k]) == history + AllSeen(ms[..k + 1])
      {
      }
      assert history + AllSeen(ms[..1]) == history';
      OneFrame(ms[0], Wire(ms[1..]), tail, history, setting);
      WrittenIsDelivered(ms[1..], tail, history', setting);
      assert ms[1..][..|ms| - 1] == ms[1..] && ms[..|ms|] == ms;
    }
  }

  /** At the first refusal or close frame the reader stops, having delivered the
      messages up to it and left the rest of the stream. */
  lemma WrittenUpToStop(ms: seq<Written>, k: nat, tail: seq<byte>, history: seq<Message>, setting: Setting)
    requires Deliverable(ms, setting) && k < |ms|
    requires forall j :: 0 < j <= k ==> !setting.Stops(history + AllSeen(ms[..j]))
    requires setting.Stops(history + AllSeen(ms[..k + 1]))
    ensures Deliver(Wire(ms) + tail, history, setting)
         == Outcome(history + AllSeen(ms[..k + 1]), true, Wire(ms[k + 1..]) + tail)
  {
    hide Deliver, Frame, Seen, Setting.Stops;
    var more := Wire(ms[k + 1..]) + tail;
    forall j | 0 <= j <= k ensures ms[..k][..j] == ms[..j] {
    }
    WireParts(ms, k);
    WrittenIsDelivered(ms[..k], Wire(ms[k..]) + tail, history, setting);
    OneFrame(ms[k], Wire(ms[k + 1..]), tail, history + AllSeen(ms[..k]), setting);
    assert ms[k..][1..] == ms[k + 1..];
    assert history + AllSeen(ms[..k]) + [Seen(ms[k])] == history + AllSeen(ms[..k + 1]);
    assert Wire(ms) + tail == Wire(ms[..k]) + (Wire(ms[k..]) + tail);
  }

  lemma {:induction false} WireParts(ms: seq<Written>, k: nat)
    requires k <= |ms|
    ensures Wire(ms) == Wire(ms[..k]) + Wire(ms[k..])
  {
    if k > 0 {
      WireParts(ms[1..], k - 1);
      assert ms[..k][1..] == ms[1..][..k - 1] && ms[k..] == ms[1..][k - 1..];
      hide Frame;
    } else {
      assert ms[..0] == [] && ms[0..] == ms;
    }
  }

  // ---------- Writer and reader together ----------

  lemma {:induction false} WireLast(ms: seq<Written>, m: Written)
    ensures Wire(ms + [m]) == Wire(ms) + Frame(m.opcode, m.payload, m.key)
  {
    hide Frame;
    if ms == [] {
      assert [] + [m] == [m];
    } else {
      assert (ms + [m])[1..] == ms[1..] + [m];
      WireLast(ms[1..], m);
    }
  }

  /** One call of a writer for every message, the server's where the key is zero. */
  method Send(writer: Writer, ms: seq<Written>, aligned: bool)
    requires forall m :: m in ms ==> |m.payload| < 0x1_0000_0000_0000_0000
    modifies writer
    ensures writer.sent == old(writer.sent) + Wire(ms)
  {
    hide Frame;
    for i := 0 to |ms|
      invariant writer.sent == old(writer.sent) + Wire(ms[..i])
    {
      var m := ms[i];
      assert m in ms && ms[..i + 1] == ms[..i] + [m];
      WireLast(ms[..i], m);
      if m.key == 0 {
        var _ := writer.ServerWrite(m.opcode, m.payload);
      } else {
        var _ := writer.ClientWrite(m.opcode, m.payload, aligned, m.key);
      }
    }
    assert ms[..|ms|] == ms;
  }

  /** The handler goes on after the first k messages. */
  ghost predicate GoesOn(ms: seq<Written>, k: nat, setting: Setting)
    requires k <= |ms|
  {
    forall j :: 0 < j <= k ==> !setting.Stops(AllSeen(ms[..j]))
  }

  /** Messages written at one end are delivered at the other, whatever bytes of them
      are already queued and however the rest is cut up: all of them, or those up to
      the first that the handler refuses or that closes. */
  method Exchange(ms: seq<Written>, aligned: bool, request: seq<byte>, ready: nat, room: nat, memory: nat,
                  accept: seq<Message> -> bool) returns (delivered: seq<Message>, closed: bool)
    requires Deliverable(ms, Setting(room, memory, accept)) && ready <= room && memory < 0x8000_0000
    ensures GoesOn(ms, |ms|, Setting(room, memory, accept)) ==> delivered == AllSeen(ms) && !closed
    ensures forall k :: 0 <= k < |ms| && GoesOn(ms, k, Setting(room, memory, accept))
                        && Setting(room, memory, accept).Stops(AllSeen(ms[..k + 1])) ==>
              delivered == AllSeen(ms[..k + 1]) && closed
  {
    hide Deliver, Wire, Seen, Setting.Stops, Setting.Fits;
    var writer := new Writer();
    Send(writer, ms, aligned);
    var sent := writer.sent;
    var n := if ready <= |sent| then ready else |sent|;
    var connection := new Connection(request, sent[..n], room, sent[n..], memory, accept);
    assert connection.Stream() == Wire(ms) by {
      assert sent[..n] + sent[n..] == sent;
    }
    WireDelivered(ms, Setting(room, memory, accept));
    closed := connection.Read();
    delivered := connection.delivered;
  }

  /** What reading the whole stream of written messages delivers. */
  lemma WireDelivered(ms: seq<Written>, setting: Setting)
    requires Deliverable(ms, setting)
    ensures var r := Deliver(Wire(ms), [], setting);
            && (GoesOn(ms, |ms|, setting) ==> r.delivered == AllSeen(ms) && !r.closed)
            && (forall k :: 0 <= k < |ms| && GoesOn(ms, k, setting) && setting.Stops(AllSeen(ms[..k + 1])) ==>
                  r.delivered == AllSeen(ms[..k + 1]) && r.closed)
  {
    hide Deliver, Wire, Seen, Setting.Stops, Setting.Fits;
    NothingMore(AllSeen(ms), setting);
    assert Wire(ms) + [] == Wire(ms);
    if GoesOn(ms, |ms|, setting) {
      FromStart(ms, |ms|, setting);
      WrittenIsDelivered(ms, [], [], setting);
      assert [] + AllSeen(ms) == AllSeen(ms);
    }
    forall k | 0 <= k < |ms| && GoesOn(ms, k, setting) && setting.Stops(AllSeen(ms[..k + 1]))
      ensures var r := Deliver(Wire(ms), [], setting); r.delivered == AllSeen(ms[..k + 1]) && r.closed
    {
      FromStart(ms, k, setting);
      assert [] + AllSeen(ms[..k + 1]) == AllSeen(ms[..k + 1]);
      WrittenUpToStop(ms, k, [], [], setting);
    }
  }

  /** A handler that always goes on is given every message up to the first with opcode 8,
      and that one; without one, all. */
  lemma ClosedByOpcode(ms: seq<Written>, k: nat, setting: Setting)
    requires Deliverable(ms, setting) && k <= |ms| && forall history :: setting.accept(history)
    requires forall j :: 0 <= j < k ==> ms[j].opcode % 16 != 8
    requires k < |ms| ==> ms[k].opcode % 16 == 8
    ensures k == |ms| ==> Deliver(Wire(ms), [], setting) == Outcome(AllSeen(ms), false, [])
    ensures k < |ms| ==> Deliver(Wire(ms), [], setting) == Outcome(AllSeen(ms[..k + 1]), true, Wire(ms[k + 1..]))
  {
    hide Deliver, Wire;
    forall j | 0 < j <= |ms| ensures setting.Stops([] + AllSeen(ms[..j])) <==> ms[j - 1].opcode % 16 == 8 {
      assert ([] + AllSeen(ms[..j]))[j - 1] == Seen(ms[j - 1]);
    }
    hide Setting.Stops, Seen, AllSeen;
    assert Wire(ms) + [] == Wire(ms) && ms[..|ms|] == ms;
    if k == |ms| {
      WrittenIsDelivered(ms, [], [], setting);
      NothingMore([] + AllSeen(ms), setting);
      assert [] + AllSeen(ms) == AllSeen(ms);
    } else {
      WrittenUpToStop(ms, k, [], [], setting);
      assert [] + AllSeen(ms[..k + 1]) == AllSeen(ms[..k + 1]) && Wire(ms[k + 1..]) + [] == Wire(ms[k + 1..]);
    }
  }

  lemma FromStart(ms: seq<Written>, k: nat, setting: Setting)
    requires k <= |ms| && GoesOn(ms, k, setting)
    ensures forall j :: 0 < j <= k ==> !setting.Stops([] + AllSeen(ms[..j]))
  {
    hide Setting.Stops;
    forall j | 0 < j <= k ensures !setting.Stops([] + AllSeen(ms[..j])) {
      assert [] + AllSeen(ms[..j]) == AllSeen(ms[..j]);
    }
  }

  lemma NothingMore(history: seq<Message>, setting: Setting)
    ensures Deliver([], history, setting) == Outcome(history, false, [])
  {
  }
}
