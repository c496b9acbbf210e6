/**
 The byte stream over WebSocket frames (payjoin-mailroom/src/ohttp_relay/bootstrap/ws.rs,
 `WsIo`): reads hand out binary payloads through a buffer, writes emit one frame each. How a
 poll of the underlying stream turns out is a parameter of the call.
 */
module WsIo {
  type Byte = bv8

  datatype Frame = Binary(data: seq<Byte>) | Ping(data: seq<Byte>) | Pong(data: seq<Byte>) | Close | Text

  /** Polling the stream: nothing yet, the next frame (or the end), or an error. */
  datatype Arrival = NotYet | Next | Broken

  datatype Poll = Ready | Pending | Failed

  function Min(a: nat, b: nat): nat {
    if a <= b then a else b
  }

  /** The binary payloads of a stream of frames, in order. */
  function Payload(frames: seq<Frame>): seq<Byte> {
    if frames == [] then []
    else
      Payload(frames[..|frames| - 1]) + if frames[|frames| - 1].Binary? then frames[|frames| - 1].data else []
  }

  lemma PayloadAppend(frames: seq<Frame>, f: Frame)
    ensures Payload(frames + [f]) == Payload(frames) + if f.Binary? then f.data else []
  {
    assert (frames + [f])[..|frames|] == frames;
  }

  lemma {:induction false} PayloadPrefix(a: seq<Frame>, b: seq<Frame>)
    requires a <= b
    ensures Payload(a) <= Payload(b)
    decreases |b|
  {
    if a == b {
    } else {
      assert a == b[..|a|] == b[..|b| - 1][..|a|];
      PayloadPrefix(a, b[..|b| - 1]);
    }
  }

  function SendPoll(works: bool): Poll {
    if works then Ready else Failed
  }

  /** What is sent back on a frame: a pong with the same data for a ping, a close for a close. */
  function Replies(message: Frame, sendWorks: bool): (r: seq<Frame>)
    ensures message.Ping? && sendWorks ==> r == [Pong(message.data)]
    ensures message.Close? && sendWorks ==> r == [Frame.Close]
    ensures (!message.Ping? && !message.Close?) || !sendWorks ==> r == []
  {
    match message
    case Ping(data) => if sendWorks then [Pong(data)] else []
    case Close => if sendWorks then [Frame.Close] else []
    case _ => []
  }

  /** What a read reports when it takes a frame. */
  function FramePoll(message: Frame, sendWorks: bool): (poll: Poll)
    ensures message.Binary? ==> poll == Ready
    ensures message.Ping? || message.Close? ==> (poll == Ready <==> sendWorks) && (poll == Failed <==> !sendWorks)
    ensures message.Pong? || message.Text? ==> poll == Pending
  {
    match message
    case Binary(_) => Ready
    case Ping(_) => SendPoll(sendWorks)
    case Close => SendPoll(sendWorks)
    case _ => Pending
  }

  class WsIo {
    var readBuffer: seq<Byte>
    var inbox: seq<Frame>
    var outbox: seq<Frame>
    ghost var consumed: seq<Frame>
    ghost var handed: seq<Byte>
    ghost var written: seq<Byte>

    /** No byte is lost, repeated or reordered on either side. */
    ghost predicate Valid()
      reads this
    {
      handed + readBuffer == Payload(consumed) && Payload(outbox) == written
    }

    constructor (inbox: seq<Frame>)
      ensures Valid() && this.inbox == inbox && outbox == [] && consumed == [] && handed == [] && written == []
    {
      readBuffer, this.inbox, outbox := [], inbox, [];
      consumed, handed, written := [], [], [];
    }

    /** Hands out as much of the buffer as fits. */
    method Drain(remaining: nat) returns (out: seq<Byte>)
      modifies this`readBuffer, this`handed
      ensures out + readBuffer == old(readBuffer) && |out| == Min(remaining, |old(readBuffer)|)
      ensures handed == old(handed) + out && handed + readBuffer == old(handed) + old(readBuffer)
    {
      var len := Min(remaining, |readBuffer|);
      out := readBuffer[..len];
      readBuffer := readBuffer[len..];
      handed := handed + out;
    }

    method StartSend(frame: Frame, works: bool) returns (poll: Poll)
      modifies this`outbox
      ensures outbox == if works then old(outbox) + [frame] else old(outbox)
      ensures poll == SendPoll(works)
    {
      if works {
        outbox := outbox + [frame];
      }
      return if works then Ready else Failed;
    }

    /** Answers a frame that carries no payload; nothing is sent for most of them. */
    method Answer(message: Frame, sendWorks: bool) returns (poll: Poll)
      requires Payload(outbox) == written && !message.Binary?
      modifies this`outbox
      ensures Payload(outbox) == written && outbox == old(outbox) + Replies(message, sendWorks)
      ensures poll == FramePoll(message, sendWorks)
    {
      match message
      case Ping(data) =>
        PayloadAppend(outbox, Pong(data));
        poll := StartSend(Pong(data), sendWorks);
      case Close =>
        PayloadAppend(outbox, Frame.Close);
        poll := StartSend(Frame.Close, sendWorks);
      case _ =>
        poll := Pending;
    }

    /** Takes the next frame into the empty buffer. */
    method TakeFrame() returns (message: Frame)
      requires Valid() && readBuffer == [] && inbox != []
      modifies this`readBuffer, this`inbox, this`consumed
      ensures Valid() && message == old(inbox)[0] && inbox == old(inbox)[1..]
      ensures consumed == old(consumed) + [message]
      ensures readBuffer == if message.Binary? then message.data else []
    {
      message := inbox[0];
      PayloadAppend(consumed, message);
      assert handed + [] == handed;
      inbox := inbox[1..];
      consumed := consumed + [message];
      if message.Binary? {
        readBuffer := readBuffer + message.data;
      }
    }

    /** A read that finds the buffer empty and a frame ready. */
    method ReadFrame(remaining: nat, sendWorks: bool) returns (poll: Poll, out: seq<Byte>)
      requires Valid() && readBuffer == [] && inbox != []
      modifies this
      ensures Valid() && handed == old(handed) + out && written == old(written)
      ensures consumed == old(consumed) + [old(inbox)[0]] && inbox == old(inbox)[1..]
      ensures |out| <= remaining && (|out| < remaining ==> readBuffer == [])
      ensures poll == FramePoll(old(inbox)[0], sendWorks)
      ensures outbox == old(outbox) + Replies(old(inbox)[0], sendWorks)
    {
      var message := TakeFrame();
      if message.Binary? {
        poll := Ready;
        out := Drain(remaining);
      } else {
        poll := Answer(message, sendWorks);
        out := [];
        assert handed + out == handed;
      }
    }

    /** The read takes a frame: only when the buffer is empty, and never more than one. */
    predicate Takes(arrival: Arrival)
      reads this
    {
      readBuffer == [] && arrival == Next && inbox != []
    }

    /**
     A read hands out the next bytes of the payloads consumed so far and nothing else. It is
     ready when it found bytes buffered or in a frame, at the end of the stream, and when it has
     answered a ping or a close, which are the only frames answered.
     */
    method PollRead(remaining: nat, arrival: Arrival, sendWorks: bool) returns (poll: Poll, out: seq<Byte>)
      requires Valid()
      modifies this
      ensures Valid() && handed == old(handed) + out && written == old(written)
      ensures if old(Takes(arrival)) then consumed == old(consumed) + [old(inbox)[0]] && inbox == old(inbox)[1..]
              else consumed == old(consumed) && inbox == old(inbox)
      ensures |out| <= remaining && (|out| < remaining ==> readBuffer == [])
      ensures outbox == old(outbox) + if old(Takes(arrival)) then Replies(old(inbox)[0], sendWorks) else []
      ensures poll ==
        if old(readBuffer) != [] then Ready
        else if old(Takes(arrival)) then FramePoll(old(inbox)[0], sendWorks)
        else match arrival case NotYet => Pending case Broken => Failed case Next => Ready
    {
      out := [];
      if readBuffer != [] {
        out := Drain(remaining);
        return Ready, out;
      }
      assert handed + out == handed;
      match arrival
      case NotYet => return Pending, out;
      case Broken => return Failed, out;
      case Next =>
        if inbox == [] {
          return Ready, out;
        }
        poll, out := ReadFrame(remaining, sendWorks);
    }

    /** A write that is ready puts all its data into one frame. */
    method PollWrite(data: seq<Byte>, ready: Poll, sendWorks: bool) returns (poll: Poll, n: nat)
      requires Valid()
      modifies this
      ensures Valid() && handed == old(handed) && consumed == old(consumed) && inbox == old(inbox)
      ensures poll == Ready <==> ready == Ready && sendWorks
      ensures poll == Ready ==> n == |data| && outbox == old(outbox) + [Binary(data)] && written == old(written) + data
      ensures poll != Ready ==> outbox == old(outbox) && written == old(written)
    {
      n := 0;
      if ready != Ready {
        return ready, n;
      }
      poll := StartSend(Binary(data), sendWorks);
      if poll == Ready {
        PayloadAppend(old(outbox), Binary(data));
        n := |data|;
        written := written + data;
      }
    }
  }

  /** When a writer's frames are what a reader gets, the reader hands out a prefix of what was written. */
  lemma WriterFeedsReader(writer: WsIo, reader: WsIo)
    requires writer.Valid() && reader.Valid()
    requires reader.consumed + reader.inbox <= writer.outbox
    ensures reader.handed <= writer.written
  {
    assert reader.consumed <= writer.outbox;
    PayloadPrefix(reader.consumed, writer.outbox);
    assert reader.handed <= reader.handed + reader.readBuffer;
  }
}
