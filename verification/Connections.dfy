/** A connection: writing and reading values as frames over a socket, in the blocking form and in the
    form that works by completion handlers. */
module Connections {
  import opened Wrappers
  import opened Text
  import opened HexHeader
  import opened Framing
  import opened Messages

  datatype ErrorCode = Success | Eof | Reset | Aborted | TimedOut | InvalidArgument | Other

  /* What the operations do, on values */

  /** What the caller of a read or a write learns: an error code and a length, or an exception. */
  datatype Report = Report(ec: ErrorCode, length: nat) | Thrown

  /** The value is there when it was assigned; then what is left of the input, and the data buffer. */
  datatype Outcome<+T> = Outcome(report: Report, value: Option<T>, rest: Bytes, buffer: Bytes)

  /** The blocking `read` on an input that ends with the error `end`. An invalid header returns 0 and
      leaves the error code clear; a body that is cut short is decoded all the same. */
  function ReadBlocking<T(!new)>(f: Filter, a: Archive<T>, input: Bytes, end: ErrorCode, buffer: Bytes): Outcome<T>
  {
    if |input| < HEADER_LENGTH then Outcome(Report(end, |input|), None, [], buffer)
    else
      var after := input[HEADER_LENGTH..];
      match ParseSize(input[..HEADER_LENGTH])
      case None => Outcome(Report(Success, 0), None, after, buffer)
      case Some(size) =>
        var got := if |after| < size then |after| else size;
        var data := Filled(buffer, size, after);
        match Unpack(f, a, data)
        case None => Outcome(Thrown, None, after[got..], data)
        case Some(t) =>
          Outcome(Report(if |after| < size then end else Success, HEADER_LENGTH + got), Some(t), after[got..], data)
  }

  /** The chain of handlers of `async_read`, up to the call of the user's handler. */
  function ReadByHandlers<T(!new)>(f: Filter, a: Archive<T>, input: Bytes, end: ErrorCode, buffer: Bytes): Outcome<T>
  {
    if |input| < HEADER_LENGTH then Outcome(Report(end, |input|), None, [], buffer)
    else
      var after := input[HEADER_LENGTH..];
      match ParseSize(input[..HEADER_LENGTH])
      case None => Outcome(Report(InvalidArgument, HEADER_LENGTH), None, after, buffer)
      case Some(size) =>
        var data := Filled(buffer, size, after);
        if |after| < size then Outcome(Report(end, HEADER_LENGTH + |after|), None, [], data)
        else
          match Unpack(f, a, data)
          case None => Outcome(Thrown, None, after[size..], data)
          case Some(t) => Outcome(Report(Success, HEADER_LENGTH + size), Some(t), after[size..], data)
  }

  /** The same for a caller that looks at the value only after success. */
  predicate SameToCaller<T(==)>(x: Outcome<T>, y: Outcome<T>) {
    && x.report == y.report && x.rest == y.rest && x.buffer == y.buffer
    && (x.report.Report? && x.report.ec == Success ==> x.value == y.value)
  }

  /** The input holds a whole header that cannot be parsed. */
  predicate InvalidHeader(input: Bytes) {
    |input| >= HEADER_LENGTH && ParseSize(input[..HEADER_LENGTH]).None?
  }

  /** The input ends within a body, and what is then in the buffer does not decode. */
  predicate UndecodableCut<T(!new)>(f: Filter, a: Archive<T>, input: Bytes, buffer: Bytes) {
    && |input| >= HEADER_LENGTH && ParseSize(input[..HEADER_LENGTH]).Some?
    && var after, size := input[HEADER_LENGTH..], ParseSize(input[..HEADER_LENGTH]).value;
       |after| < size && Unpack(f, a, Filled(buffer, size, after)).None?
  }

  /** The two forms of reading agree on every input, except exactly that the blocking form hides an
      invalid header, and throws where the other reports that a body was cut short. */
  lemma FormsOfReadingAgreeExactly<T(!new)>(f: Filter, a: Archive<T>, input: Bytes, end: ErrorCode, buffer: Bytes)
    requires end != Success
    ensures SameToCaller(ReadBlocking(f, a, input, end, buffer), ReadByHandlers(f, a, input, end, buffer))
       <==> !InvalidHeader(input) && !UndecodableCut(f, a, input, buffer)
  {
  }

  /** A header on which they differ: one form reports success and nothing read, the other an error. */
  lemma InvalidHeaderIsHidden<T(!new)>(f: Filter, a: Archive<T>, end: ErrorCode, buffer: Bytes)
    ensures ReadBlocking(f, a, "zzzzzzzz", end, buffer).report == Report(Success, 0)
    ensures ReadByHandlers(f, a, "zzzzzzzz", end, buffer).report == Report(InvalidArgument, HEADER_LENGTH)
  {
    var h: Bytes := "zzzzzzzz";
    assert h[..HEADER_LENGTH] == h && DigitRun(AfterPrefix(AfterSign(SkipSpace(h)))) == [];
  }

  /** A body on which they differ: none of it has come, and zeros do not decode. */
  lemma CutBodyIsThrown<T(!new)>(f: Filter, a: Archive<T>, header: Bytes, size: nat, end: ErrorCode)
    requires |header| == HEADER_LENGTH && ParseSize(header) == Some(size) && size > 0
    requires Unpack(f, a, Resized([], size)) == None
    ensures ReadBlocking(f, a, header, end, []).report == Thrown
    ensures ReadByHandlers(f, a, header, end, []).report == Report(end, HEADER_LENGTH)
  {
    assert header[..HEADER_LENGTH] == header && header[HEADER_LENGTH..] == [];
    assert Filled([], size, []) == Resized([], size);
  }

  /** Reading in either form what was written gives the value and the length of the frame, and leaves
      the bytes that follow. */
  lemma WrittenIsRead<T(!new)>(f: Filter, a: Archive<T>, t: T, rest: Bytes, end: ErrorCode, buffer: Bytes)
    requires f.Inverts() && a.Inverts() && FrameOf(Pack(f, a, t)).Some?
    ensures var frame := FrameOf(Pack(f, a, t)).value;
            var outcome := Outcome(Report(Success, |frame|), Some(t), rest, Pack(f, a, t));
            && ReadBlocking(f, a, frame + rest, end, buffer) == outcome
            && ReadByHandlers(f, a, frame + rest, end, buffer) == outcome
  {
    var payload := Pack(f, a, t);
    TryReadFrame(payload, rest);
    UnpackInverts(f, a, t);
  }

  /* The socket */

  /** A connected socket: the bytes that will still arrive, and the error after them; the bytes sent,
      the number that can still be sent, and the error after those. */
  class Socket {
    var input: Bytes
    var inputEnd: ErrorCode
    var output: Bytes
    var room: nat
    var outputEnd: ErrorCode

    ghost predicate Valid()
      reads this
    {
      inputEnd != Success && outputEnd != Success
    }

    /** Transfers exactly `n` bytes, or all there are and the error. */
    method Read(n: nat) returns (bytes: Bytes, ec: ErrorCode)
      requires Valid()
      modifies this`input
      ensures Valid()
      ensures |old(input)| >= n ==> bytes == old(input)[..n] && input == old(input)[n..] && ec == Success
      ensures |old(input)| < n ==> bytes == old(input) && input == [] && ec == inputEnd
    {
      if |input| >= n {
        bytes, input, ec := input[..n], input[n..], Success;
      } else {
        bytes, input, ec := input, [], inputEnd;
      }
    }

    /** A gathering write of two buffers. */
    method Write(first: Bytes, second: Bytes) returns (n: nat, ec: ErrorCode)
      requires Valid()
      modifies this`output, this`room
      ensures Valid()
      ensures var all := first + second;
              && n == (if |all| <= old(room) then |all| else old(room))
              && ec == (if |all| <= old(room) then Success else outputEnd)
              && output == old(output) + all[..n] && room == old(room) - n
    {
      var all := first + second;
      if |all| <= room {
        n, ec := |all|, Success;
      } else {
        n, ec := room, outputEnd;
      }
      output, room := output + all[..n], room - n;
    }
  }

  /* The connection */

  datatype Pending = Nothing | HeaderRead | BodyRead(size: nat, soFar: nat)

  class Connection {
    const socket: Socket
    const filter: Filter
    const inboundHeader: array<Byte>
    var outboundHeader: Bytes
    var outboundData: Bytes
    var inboundData: Bytes
    var pending: Pending

    constructor (socket: Socket, filter: Filter)
      requires socket.Valid()
      ensures Valid() && this.socket == socket && this.filter == filter && fresh(inboundHeader)
      ensures pending == Nothing && inboundData == []
    {
      this.socket := socket;
      this.filter := filter;
      inboundHeader := new Byte[HEADER_LENGTH](_ => '\0');
      outboundHeader, outboundData, inboundData, pending := [], [], [], Nothing;
    }

    ghost predicate Valid()
      reads this, socket
    {
      socket.Valid() && inboundHeader.Length == HEADER_LENGTH
    }

    function AtMost(n: nat, room: nat): nat {
      if n <= room then n else room
    }

    /** What both forms of writing do to the socket and the buffers. */
    twostate predicate Wrote<T(!new)>(a: Archive<T>, t: T, report: Report)
      reads this, socket
    {
      var payload := Pack(filter, a, t);
      && outboundData == payload
      && socket.input == old(socket.input)
      && match FrameOf(payload)
         case None =>
           report.Report? && report.ec == InvalidArgument
           && outboundHeader == old(outboundHeader) && socket.output == old(socket.output)
         case Some(frame) =>
           outboundHeader + outboundData == frame
           && socket.output == old(socket.output) + frame[..AtMost(|frame|, old(socket.room))]
           && report == if |frame| <= old(socket.room) then Report(Success, |frame|)
                        else Report(socket.outputEnd, old(socket.room))
    }

    /** `write` */
    method Write<T(!new)>(a: Archive<T>, t: T) returns (report: Report)
      requires Valid()
      modifies this`outboundHeader, this`outboundData, socket`output, socket`room
      ensures Valid() && Wrote(a, t, report)
      ensures FrameOf(Pack(filter, a, t)).None? ==> report.length == |Hex(|Pack(filter, a, t)|)| > HEADER_LENGTH
    {
      outboundData := filter.output(a.save(t));
      var header := PrintHeader(|outboundData|);
      if header.None? {
        HeaderPrintsExactly(|outboundData|);
        HexLength(|outboundData|, 8);
        SixteenToTheEighth();
        return Report(InvalidArgument, |Padded(|outboundData|)|);
      }
      outboundHeader := header.value;
      var n, ec := socket.Write(outboundHeader, outboundData);
      report := Report(ec, n);
    }

    /** `async_write`, up to the call of the handler. */
    method AsyncWrite<T(!new)>(a: Archive<T>, t: T) returns (report: Report)
      requires Valid()
      modifies this`outboundHeader, this`outboundData, socket`output, socket`room
      ensures Valid() && Wrote(a, t, report)
      ensures FrameOf(Pack(filter, a, t)).None? ==> report.length == HEADER_LENGTH
    {
      outboundData := filter.output(a.save(t));
      var header := PrintHeader(|outboundData|);
      if header.None? {
        return Report(InvalidArgument, HEADER_LENGTH);
      }
      outboundHeader := header.value;
      var n, ec := socket.Write(outboundHeader, outboundData);
      report := Report(ec, n);
    }

    /** Reads into the header buffer; on an error, part of it keeps what it held. */
    method ReadHeader() returns (length: nat, ec: ErrorCode)
      requires Valid()
      modifies socket`input, inboundHeader
      ensures Valid()
      ensures |old(socket.input)| < HEADER_LENGTH ==>
                length == |old(socket.input)| && ec == socket.inputEnd && socket.input == []
      ensures |old(socket.input)| >= HEADER_LENGTH ==>
                && length == HEADER_LENGTH && ec == Success
                && inboundHeader[..] == old(socket.input)[..HEADER_LENGTH]
                && socket.input == old(socket.input)[HEADER_LENGTH..]
    {
      var bytes;
      bytes, ec := socket.Read(HEADER_LENGTH);
      forall i | 0 <= i < |bytes| {
        inboundHeader[i] := bytes[i];
      }
      length := |bytes|;
    }

    /** Resizes the data buffer and reads into it. */
    method ReadBody(size: nat) returns (length: nat, ec: ErrorCode)
      requires Valid()
      modifies socket`input, this`inboundData
      ensures Valid()
      ensures inboundData == Filled(old(inboundData), size, old(socket.input))
      ensures |old(socket.input)| < size ==>
                length == |old(socket.input)| && ec == socket.inputEnd && socket.input == []
      ensures |old(socket.input)| >= size ==>
                length == size && ec == Success && socket.input == old(socket.input)[size..]
    {
      inboundData := Resized(inboundData, size);
      var bytes;
      bytes, ec := socket.Read(size);
      inboundData := bytes + inboundData[|bytes|..];
      length := |bytes|;
    }

    /** `read` */
    method Read<T(!new)>(a: Archive<T>) returns (report: Report, value: Option<T>)
      requires Valid()
      modifies socket`input, this`inboundData, inboundHeader
      ensures Valid()
      ensures Outcome(report, value, socket.input, inboundData)
           == ReadBlocking(filter, a, old(socket.input), socket.inputEnd, old(inboundData))
    {
      value := None;
      var length, ec := ReadHeader();
      if ec != Success {
        return Report(ec, length), None;
      }
      var size := ParseSize(inboundHeader[..]);
      if size.None? {
        return Report(Success, 0), None;
      }
      var more;
      more, ec := ReadBody(size.value);
      length := length + more;
      value := Unpack(filter, a, inboundData);
      if value.None? {
        return Thrown, None;
      }
      report := Report(ec, length);
    }

    /* The handlers of `async_read`: each returns a report when it calls the user's handler. */

    method AsyncRead()
      requires Valid() && pending == Nothing
      modifies this`pending
      ensures Valid() && pending == HeaderRead
    {
      pending := HeaderRead;
    }

    /** The read of the header completes. */
    method HandleReadHeader() returns (report: Option<Report>)
      requires Valid() && pending == HeaderRead
      modifies this`pending, socket`input, inboundHeader
      ensures Valid() && (report.Some? <==> pending == Nothing)
      ensures var input := old(socket.input);
              if |input| < HEADER_LENGTH then
                report == Some(Report(socket.inputEnd, |input|)) && socket.input == []
              else
                && socket.input == input[HEADER_LENGTH..]
                && match ParseSize(input[..HEADER_LENGTH])
                   case None => report == Some(Report(InvalidArgument, HEADER_LENGTH))
                   case Some(size) => report == None && pending == BodyRead(size, HEADER_LENGTH)
    {
      var length, ec := ReadHeader();
      pending := Nothing;
      if ec != Success {
        return Some(Report(ec, length));
      }
      var size := ParseSize(inboundHeader[..]);
      if size.None? {
        return Some(Report(InvalidArgument, length));
      }
      pending := BodyRead(size.value, length);
      report := None;
    }

    /** The read of the body completes. */
    method HandleReadData<T(!new)>(a: Archive<T>) returns (report: Report, value: Option<T>)
      requires Valid() && pending.BodyRead?
      modifies this`pending, this`inboundData, socket`input
      ensures Valid() && pending == Nothing
      ensures var input, size := old(socket.input), old(pending).size;
              && inboundData == Filled(old(inboundData), size, input)
              && if |input| < size then
                   && report == Report(socket.inputEnd, old(pending).soFar + |input|) && value == None
                   && socket.input == []
                 else
                   && socket.input == input[size..]
                   && value == Unpack(filter, a, inboundData)
                   && report == if value.None? then Thrown else Report(Success, old(pending).soFar + size)
    {
      var soFar := pending.soFar;
      var length, ec := ReadBody(pending.size);
      pending := Nothing;
      if ec != Success {
        return Report(ec, soFar + length), None;
      }
      value := Unpack(filter, a, inboundData);
      report := if value.None? then Thrown else Report(Success, soFar + length);
    }

    /** From the start of an asynchronous read to the call of the user's handler. */
    method RunAsyncRead<T(!new)>(a: Archive<T>) returns (report: Report, value: Option<T>)
      requires Valid() && pending == Nothing
      modifies this`pending, this`inboundData, socket`input, inboundHeader
      ensures Valid() && pending == Nothing
      ensures Outcome(report, value, socket.input, inboundData)
           == ReadByHandlers(filter, a, old(socket.input), socket.inputEnd, old(inboundData))
    {
      AsyncRead();
      var early := HandleReadHeader();
      if early.Some? {
        return early.value, None;
      }
      report, value := HandleReadData(a);
    }
  }
}
