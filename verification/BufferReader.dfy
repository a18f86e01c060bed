/** BufferReader, and the message frames a bunch is made of: a 16-bit size that counts
    the four header bytes, a 16-bit message id, the payload. */
module BufferReader {

  type byte = x: int | 0 <= x < 0x100

  type uint16 = x: int | 0 <= x < 0x1_0000

  const HEADER := 4

  class BufferReader {
    /** The bytes the reader was made over; `_view` is what lies behind Offset. */
    const Data: seq<byte>
    var Offset: nat
    var Error: bool

    ghost predicate Valid()
      reads this
    {
      Offset <= |Data|
    }

    constructor (data: seq<byte>)
      ensures Valid() && Data == data && Offset == 0 && !Error
    {
      Data, Offset, Error := data, 0, false;
    }

    predicate CanRead(size: nat)
      requires Valid()
      reads this
    {
      !Error && |Data| - Offset >= size
    }

    /** Read<uint16_t>: two bytes, least significant first. */
    method ReadUint16() returns (ok: bool, value: uint16)
      requires Valid()
      modifies this
      ensures Valid() && ok == (|Data| - old(Offset) >= 2)
      ensures ok ==> value == Uint16At(Data, old(Offset)) && Offset == old(Offset) + 2 && Error == old(Error)
      ensures !ok ==> Offset == old(Offset) && Error
    {
      ok, value := |Data| - Offset >= 2, 0;
      if ok {
        value := Uint16At(Data, Offset);
        Offset := Offset + 2;
      } else {
        Error := true;
      }
    }

    /** The view of the next `size` bytes, as the range [from, to) of Data. */
    method ReadView(size: nat) returns (from: nat, to: nat)
      requires Valid()
      modifies this
      ensures Valid()
      ensures if |Data| - old(Offset) >= size
              then from == old(Offset) && to == Offset == from + size && Error == old(Error)
              else from == to == 0 && Offset == old(Offset) && Error
    {
      if |Data| - Offset < size {
        Error := true;
        return 0, 0;
      }
      from, to := Offset, Offset + size;
      Offset := to;
    }
  }

  function Uint16At(data: seq<byte>, at: nat): uint16
    requires at + 2 <= |data|
  {
    (data[at] as int) + 0x100 * (data[at + 1] as int)
  }

  /** A message handed to ReceivedMessage: its id and the range its payload occupies. */
  datatype Message = Message(id: uint16, from: nat, to: nat)

  /** A frame's size without its header, in 16 bits. */
  function PayloadSize(size: uint16): nat {
    (size - HEADER) % 0x1_0000
  }

  /** A whole frame starts at `at`. */
  predicate Readable(data: seq<byte>, at: nat) {
    at + HEADER <= |data| && at + HEADER + PayloadSize(Uint16At(data, at)) <= |data|
  }

  function MessageAt(data: seq<byte>, at: nat): (m: Message)
    requires Readable(data, at)
    ensures at < m.from <= m.to <= |data|
  {
    var from := at + HEADER;
    Message(Uint16At(data, at + 2), from, from + PayloadSize(Uint16At(data, at)))
  }

  /** The messages are the frames that follow one another from `at`. */
  ghost predicate Consecutive(data: seq<byte>, at: nat, messages: seq<Message>)
    decreases |messages|
  {
    messages == [] ||
    (Readable(data, at) && messages[0] == MessageAt(data, at) && Consecutive(data, messages[0].to, messages[1..]))
  }

  ghost function EndOf(at: nat, messages: seq<Message>): nat {
    if messages == [] then at else messages[|messages| - 1].to
  }

  lemma {:induction false} ConsecutiveNext(data: seq<byte>, at: nat, messages: seq<Message>)
    requires Consecutive(data, at, messages) && Readable(data, EndOf(at, messages))
    ensures Consecutive(data, at, messages + [MessageAt(data, EndOf(at, messages))])
    decreases |messages|
  {
    var next := MessageAt(data, EndOf(at, messages));
    if messages == [] {
      assert Consecutive(data, next.to, []);
    } else {
      assert (messages + [next])[1..] == messages[1..] + [next];
      ConsecutiveNext(data, messages[0].to, messages[1..]);
    }
  }

  /** DispatchRawBunch_Interanl: hands out the frames one by one and fails at the first
      that is not whole; the messages before it have been handed out by then. */
  method Parse(reader: BufferReader, messageCount: nat) returns (messages: seq<Message>, ok: bool)
    requires reader.Valid() && !reader.Error
    modifies reader
    ensures (messages, ok) == Frames(reader.Data, old(reader.Offset), messageCount)
  {
    ghost var start := reader.Offset;
    messages := [];
    var count := 0;
    while count < messageCount
      invariant count == |messages| <= messageCount && reader.Valid() && !reader.Error
      invariant Consecutive(reader.Data, start, messages) && reader.Offset == EndOf(start, messages)
    {
      ghost var at := reader.Offset;
      if !reader.CanRead(HEADER) {
        FramesAre(reader.Data, start, messageCount, messages);
        return messages, false;
      }
      var ok1, size := reader.ReadUint16();
      var ok2, id := reader.ReadUint16();
      var payloadSize := PayloadSize(size);
      if !reader.CanRead(payloadSize) {
        FramesAre(reader.Data, start, messageCount, messages);
        return messages, false;
      }
      var from, to := reader.ReadView(payloadSize);
      ConsecutiveNext(reader.Data, start, messages);
      messages := messages + [Message(id, from, to)];
      count := count + 1;
    }
    FramesAre(reader.Data, start, messageCount, messages);
    ok := true;
  }

  /** What a bunch of `count` messages at `at` delivers, and whether it was whole. */
  function Frames(data: seq<byte>, at: nat, count: nat): (seq<Message>, bool)
    decreases count
  {
    if count == 0 then ([], true)
    else if !Readable(data, at) then ([], false)
    else
      var m := MessageAt(data, at);
      var (rest, ok) := Frames(data, m.to, count - 1);
      ([m] + rest, ok)
  }

  /** The frames delivered are the longest run of whole frames, up to `count`: any run
      that stops for one of those two reasons is that one. */
  lemma {:induction false} FramesAre(data: seq<byte>, at: nat, count: nat, messages: seq<Message>)
    requires Consecutive(data, at, messages) && |messages| <= count
    requires |messages| == count || !Readable(data, EndOf(at, messages))
    ensures Frames(data, at, count) == (messages, |messages| == count)
    decreases count
  {
    if messages != [] {
      FramesAre(data, messages[0].to, count - 1, messages[1..]);
      assert [messages[0]] + messages[1..] == messages;
    }
  }

  /** And it is a run of whole frames of at most that length. */
  lemma {:induction false} FramesRun(data: seq<byte>, at: nat, count: nat)
    ensures var (messages, ok) := Frames(data, at, count);
            && Consecutive(data, at, messages) && |messages| <= count
            && (ok <==> |messages| == count) && (!ok ==> !Readable(data, EndOf(at, messages)))
    decreases count
  {
    if count > 0 && Readable(data, at) {
      var m := MessageAt(data, at);
      FramesRun(data, m.to, count - 1);
      var rest := Frames(data, m.to, count - 1).0;
      assert ([m] + rest)[1..] == rest;
      assert EndOf(at, [m] + rest) == EndOf(m.to, rest);
    }
  }

  /** A message for the sending service. */
  datatype Frame = Frame(id: uint16, payload: seq<byte>)

  /** SerializeToArray gets the payload's size in 16 bits and refuses anything longer, so no
      other message is enqueued. */
  ghost predicate Serializable(frames: seq<Frame>) {
    forall i | 0 <= i < |frames| :: |frames[i].payload| < 0x1_0000
  }

  function LittleEndian(x: uint16): seq<byte> {
    [x % 0x100, x / 0x100]
  }

  /** TotalSize: the frame's size, in 16 bits. */
  function TotalSize(f: Frame): uint16 {
    (HEADER + |f.payload|) % 0x1_0000
  }

  /** The whole frame: TotalSize, the message id, the payload. */
  function WholeFrame(f: Frame): seq<byte> {
    LittleEndian(TotalSize(f)) + LittleEndian(f.id) + f.payload
  }

  /** SendPacket: what is enqueued are the first TotalSize bytes of the frame. */
  function EncodeFrame(f: Frame): (bytes: seq<byte>)
    ensures |bytes| == TotalSize(f)
  {
    WholeFrame(f)[..TotalSize(f)]
  }

  function EncodeFrames(frames: seq<Frame>): seq<byte> {
    if frames == [] then [] else EncodeFrame(frames[0]) + EncodeFrames(frames[1..])
  }

  /** The frame's size does not wrap: a payload of at most 65531 bytes. */
  predicate Fits(f: Frame) {
    |f.payload| <= 0xFFFF - HEADER
  }

  ghost predicate AllFit(frames: seq<Frame>) {
    forall i | 0 <= i < |frames| :: Fits(frames[i])
  }

  /** The frames' messages when the first one starts at `at`: back to back. */
  function Laid(frames: seq<Frame>, at: nat): seq<Message> {
    if frames == [] then []
    else
      var to := at + HEADER + |frames[0].payload|;
      [Message(frames[0].id, at + HEADER, to)] + Laid(frames[1..], to)
  }

  lemma LittleEndianAt(data: seq<byte>, at: nat, x: uint16)
    requires at + 2 <= |data| && data[at] == LittleEndian(x)[0] && data[at + 1] == LittleEndian(x)[1]
    ensures Uint16At(data, at) == x
  {
  }

  lemma FitsWhole(f: Frame)
    requires Fits(f)
    ensures TotalSize(f) == HEADER + |f.payload| && PayloadSize(TotalSize(f)) == |f.payload|
    ensures EncodeFrame(f) == WholeFrame(f) && |WholeFrame(f)| == HEADER + |f.payload|
    ensures WholeFrame(f)[HEADER..] == f.payload
  {
  }

  lemma FrameReadable(before: seq<byte>, f: Frame, tail: seq<byte>)
    requires Fits(f)
    ensures |EncodeFrame(f)| == HEADER + |f.payload|
    ensures var data, at := before + EncodeFrame(f) + tail, |before|;
            && Readable(data, at)
            && MessageAt(data, at) == Message(f.id, at + HEADER, at + HEADER + |f.payload|)
            && data[at + HEADER..at + HEADER + |f.payload|] == f.payload
  {
    FitsWhole(f);
    hide Uint16At, LittleEndian, PayloadSize, EncodeFrame, TotalSize;
    var code, at := WholeFrame(f), |before|;
    var data := before + code + tail;
    assert forall j | 0 <= j < |code| :: data[at + j] == code[j];
    assert |LittleEndian(f.id)| == 2 && |LittleEndian(TotalSize(f))| == 2 by {
      LittleEndianLength(f.id);
      LittleEndianLength(TotalSize(f));
    }
    LittleEndianAt(data, at, TotalSize(f));
    LittleEndianAt(data, at + 2, f.id);
  }

  lemma LittleEndianLength(x: uint16)
    ensures |LittleEndian(x)| == 2
  {
  }

  /** Framing round trip: the concatenation of frames that fit, parsed with their number,
      delivers exactly their ids in order over consecutive ranges, wherever it starts and
      whatever follows. */
  lemma {:induction false} FramingRoundTrip(before: seq<byte>, frames: seq<Frame>, tail: seq<byte>)
    requires AllFit(frames)
    ensures Frames(before + EncodeFrames(frames) + tail, |before|, |frames|) == (Laid(frames, |before|), true)
    decreases |frames|
  {
    hide EncodeFrame, Readable, MessageAt;
    if frames != [] {
      var data := before + EncodeFrames(frames) + tail;
      var next := before + EncodeFrame(frames[0]);
      assert data == before + EncodeFrame(frames[0]) + (EncodeFrames(frames[1..]) + tail);
      assert data == next + EncodeFrames(frames[1..]) + tail;
      FrameReadable(before, frames[0], EncodeFrames(frames[1..]) + tail);
      FramingRoundTrip(next, frames[1..], tail);
    }
  }

  /** The bytes from the first frame on, and from the second. */
  lemma FirstFrame(before: seq<byte>, frames: seq<Frame>, tail: seq<byte>)
    requires frames != []
    ensures before + EncodeFrames(frames) + tail == before + EncodeFrame(frames[0]) + (EncodeFrames(frames[1..]) + tail)
    ensures before + EncodeFrames(frames) + tail == (before + EncodeFrame(frames[0])) + EncodeFrames(frames[1..]) + tail
  {
    hide EncodeFrame;
  }

  lemma LaidLength(frames: seq<Frame>, at: nat)
    ensures |Laid(frames, at)| == |frames|
  {
  }

  /** Each delivered range holds the payload that was framed. */
  lemma {:induction false} LaidPayloads(before: seq<byte>, frames: seq<Frame>, tail: seq<byte>, i: nat)
    requires AllFit(frames) && i < |frames|
    ensures var data, laid := before + EncodeFrames(frames) + tail, Laid(frames, |before|);
            && |laid| == |frames| && laid[i].id == frames[i].id
            && laid[i].from <= laid[i].to <= |data| && data[laid[i].from..laid[i].to] == frames[i].payload
            && (i > 0 ==> laid[i].from == laid[i - 1].to + HEADER)
    decreases |frames|
  {
    hide Uint16At, Readable, MessageAt, EncodeFrame, EncodeFrames;
    var next, rest := before + EncodeFrame(frames[0]), frames[1..];
    FirstFrame(before, frames, tail);
    FrameReadable(before, frames[0], EncodeFrames(rest) + tail);
    LaidLength(rest, |next|);
    LaidLength(frames, |before|);
    if i > 0 {
      LaidPayloads(next, rest, tail, i - 1);
    }
  }

  // ----- frames whose size wraps -----

  /** The messages are those of the frames: same number, same ids, same payloads. */
  ghost predicate DeliversAll(data: seq<byte>, messages: seq<Message>, frames: seq<Frame>) {
    && |messages| == |frames|
    && forall i | 0 <= i < |frames| ::
         && messages[i].id == frames[i].id && messages[i].from <= messages[i].to <= |data|
         && data[messages[i].from..messages[i].to] == frames[i].payload
  }

  /** The bytes that whole frames with these payloads take. */
  ghost function Needed(frames: seq<Frame>): nat {
    if frames == [] then 0 else HEADER + |frames[0].payload| + Needed(frames[1..])
  }

  lemma {:induction false} EnqueuedBytes(frames: seq<Frame>)
    requires Serializable(frames)
    ensures |EncodeFrames(frames)| <= Needed(frames)
    ensures |EncodeFrames(frames)| == Needed(frames) <==> AllFit(frames)
    decreases |frames|
  {
    hide EncodeFrame;
    if frames != [] {
      EnqueuedBytes(frames[1..]);
      assert |EncodeFrame(frames[0])| == TotalSize(frames[0]);
      assert frames == [frames[0]] + frames[1..];
    }
  }

  /** Messages that follow one another take the bytes of whole frames. */
  lemma {:induction false} DeliveredBytes(data: seq<byte>, at: nat, messages: seq<Message>, frames: seq<Frame>)
    requires Consecutive(data, at, messages) && DeliversAll(data, messages, frames) && at <= |data|
    ensures at + Needed(frames) <= |data|
    decreases |frames|
  {
    if frames != [] {
      assert |data[messages[0].from..messages[0].to]| == |frames[0].payload|;
      DeliveredBytes(data, messages[0].to, messages[1..], frames[1..]);
    }
  }

  /** A list of messages comes out of the parser as it was sent exactly when no payload is
      longer than 65531 bytes: a longer one leaves 0 to 3 bytes in the bunch. */
  lemma FramingIff(before: seq<byte>, frames: seq<Frame>)
    requires Serializable(frames)
    ensures var data := before + EncodeFrames(frames);
            var (messages, ok) := Frames(data, |before|, |frames|);
            ok && DeliversAll(data, messages, frames) <==> AllFit(frames)
  {
    hide EncodeFrames, Frames;
    var data := before + EncodeFrames(frames);
    assert data == data + [] && data == before + EncodeFrames(frames) + [];
    EnqueuedBytes(frames);
    FramesRun(data, |before|, |frames|);
    if AllFit(frames) {
      FramingRoundTrip(before, frames, []);
      LaidAll(before, frames);
    } else if DeliversAll(data, Frames(data, |before|, |frames|).0, frames) {
      DeliveredBytes(data, |before|, Frames(data, |before|, |frames|).0, frames);
    }
  }

  lemma LaidAll(before: seq<byte>, frames: seq<Frame>)
    requires AllFit(frames)
    ensures DeliversAll(before + EncodeFrames(frames) + [], Laid(frames, |before|), frames)
  {
    hide EncodeFrames, Laid;
    if frames == [] {
      LaidNone(|before|);
    } else {
      forall i | 0 <= i < |frames|
        ensures var m, data := Laid(frames, |before|), before + EncodeFrames(frames) + [];
                && |m| == |frames| && m[i].id == frames[i].id && m[i].from <= m[i].to <= |data|
                && data[m[i].from..m[i].to] == frames[i].payload
      {
        LaidPayloads(before, frames, [], i);
      }
      LaidPayloads(before, frames, [], 0);
    }
  }

  lemma LaidNone(at: nat)
    ensures Laid([], at) == []
  {
  }
}
