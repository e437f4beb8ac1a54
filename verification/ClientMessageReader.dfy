/** internal/cluster/client_message.go: the reader with its half-read header kept between
    calls, and the part of the connection's read loop that drives it. */
module ClientMessageReaders {
  import opened Wrappers
  import opened ClientMessages

  /** What one attempt to read a frame did; a length below the header size panics. */
  datatype Status = NoFrame | FrameRead | Panicked

  class ClientMessageReader {
    var src: seq<byte>
    var clientMessage: Message
    var currentFrameLength: nat
    var currentFlags: uint16
    var readHeader: bool

    /** The bytes received that do not belong to a frame read so far. */
    ghost function Pending(): seq<byte>
      reads this
    {
      if readHeader then PutUint(currentFrameLength, 4) + PutUint(currentFlags, 2) + src else src
    }

    ghost predicate Valid()
      reads this
    {
      readHeader ==> HEADER <= currentFrameLength && Uint(PutUint(currentFrameLength, 4)) == currentFrameLength
                     && Uint(PutUint(currentFlags, 2)) == currentFlags
    }

    constructor ()
      ensures Valid() && Pending() == [] && clientMessage == []
    {
      src, clientMessage, currentFrameLength, currentFlags, readHeader := [], [], 0, 0, false;
    }

    method Append(buf: seq<byte>)
      requires Valid()
      modifies this`src
      ensures Valid() && Pending() == old(Pending()) + buf
    {
      src := src + buf;
    }

    method ReadFrame() returns (status: Status)
      requires Valid()
      modifies this
      ensures
        match NextFrame(old(Pending()))
        case NeedMore => status == NoFrame && Valid() && Pending() == old(Pending()) &&
            clientMessage == old(clientMessage)
        case Got(f, rest) => status == FrameRead && Valid() && Pending() == rest &&
            clientMessage == old(clientMessage) + [f]
        case Malformed => status == Panicked
    {
      if !readHeader {
        if |src| < HEADER {
          return NoFrame;
        }
        var length := Uint(src[..4]);
        if length < HEADER {
          return Panicked;
        }
        GetThenPut(src[..4]);
        GetThenPut(src[4..HEADER]);
        currentFrameLength := length;
        currentFlags := Uint(src[4..HEADER]);
        src := src[HEADER..];
        readHeader := true;
      }
      assert Pending() == old(Pending());
      var b := PutUint(currentFrameLength, 4) + PutUint(currentFlags, 2) + src;
      assert b[..4] == PutUint(currentFrameLength, 4) && b[4..HEADER] == PutUint(currentFlags, 2);
      var size := currentFrameLength - HEADER;
      if |src| < size {
        return NoFrame;
      }
      assert b[HEADER..currentFrameLength] == src[..size] && b[currentFrameLength..] == src[size..];
      clientMessage := clientMessage + [Frame(src[..size], currentFlags)];
      src := src[size..];
      readHeader := false;
      return FrameRead;
    }

    /** Reads frames until one is final, for which it returns true, or none is complete. */
    method Read() returns (status: Status)
      requires Valid()
      modifies this
      ensures status.NoFrame? ==>
                Valid() && Drain(old(clientMessage), old(Pending())) == Progress([], clientMessage, Pending(), false)
      ensures status.FrameRead? ==>
                && Valid() && clientMessage != [] && |Pending()| < |old(Pending())|
                && Drain(old(clientMessage), old(Pending())) ==
                   if Unfragmented(clientMessage) then
                     var p := Drain([], Pending());
                     p.(delivered := [clientMessage] + p.delivered)
                   else Drain(clientMessage, Pending())
      ensures status.Panicked? ==>
                Drain(old(clientMessage), old(Pending())).panicked &&
                    Drain(old(clientMessage), old(Pending())).delivered == []
    {
      while true
        invariant Valid() && |Pending()| <= |old(Pending())|
        invariant Drain(clientMessage, Pending()) == Drain(old(clientMessage), old(Pending()))
        decreases |Pending()|
      {
        DrainOneFrame(clientMessage, Pending());
        status := ReadFrame();
        if status != FrameRead || IsFinal(clientMessage[|clientMessage| - 1].flags) {
          return;
        }
      }
    }

    method ResetMessage()
      modifies this`clientMessage
      ensures clientMessage == []
    {
      clientMessage := [];
    }

    /** Copies the unread bytes out, resets the buffer and writes them back. */
    method ResetBuffer()
      modifies this`src
      ensures src == old(src)
    {
      var all := src;
      src := [];
      src := src + all;
    }

    /** One turn of the connection's read loop: append a chunk, hand on every message that
        completes and is unfragmented, and reset the buffer. */
    method Feed(chunk: seq<byte>) returns (delivered: seq<Message>, panicked: bool)
      requires Valid()
      modifies this
      ensures
        var p := Drain(old(clientMessage), old(Pending()) + chunk);
        && delivered == p.delivered && panicked == p.panicked
        && (!panicked ==> Valid() && clientMessage == p.current && Pending() == p.rest)
    {
      Append(chunk);
      delivered := [];
      ghost var goal := Drain(clientMessage, Pending());
      while true
        invariant Valid()
        invariant
          var p := Drain(clientMessage, Pending());
          goal == p.(delivered := delivered + p.delivered)
        decreases |Pending()|
      {
        var status := Read();
        if status == Panicked {
          return delivered, true;
        }
        if status == NoFrame {
          break;
        }
        if Unfragmented(clientMessage) {
          AppendAssociates(delivered, [clientMessage], Drain([], Pending()).delivered);
          delivered := delivered + [clientMessage];
          ResetMessage();
        }
      }
      ResetBuffer();
      return delivered, false;
    }
  }
}
