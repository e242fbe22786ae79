/** Frames: a header holding the length of the payload, then the payload. The reader first waits
    for the eight bytes of a header and then for as many bytes as the header says. */
module Framing {
  import opened Wrappers
  import opened Text
  import opened HexHeader

  /** The bytes written for a payload; none when its length does not fit the header. */
  function FrameOf(payload: Bytes): (frame: Option<Bytes>)
    ensures frame.Some? <==> |payload| < SIZE_LIMIT
    ensures frame.Some? ==> |frame.value| == HEADER_LENGTH + |payload|
  {
    HeaderPrintsExactly(|payload|);
    match PrintHeader(|payload|)
    case None => None
    case Some(header) => Some(header + payload)
  }

  /** The bytes of a frame: eight that are the text of its length, then the payload. */
  lemma FrameText(payload: Bytes) returns (blanks: nat)
    requires FrameOf(payload).Some?
    ensures IsHeaderOf(FrameOf(payload).value[..8], |payload|, blanks) && FrameOf(payload).value[8..] == payload
  {
    blanks := HeaderText(|payload|);
    assert FrameOf(payload).value[..8] == PrintHeader(|payload|).value;
  }

  ghost predicate AllFit(payloads: seq<Bytes>) {
    forall i :: 0 <= i < |payloads| ==> FrameOf(payloads[i]).Some?
  }

  /** The bytes of a list of frames, one after the other. */
  ghost function Frames(payloads: seq<Bytes>): Bytes
    requires AllFit(payloads)
  {
    if payloads == [] then [] else FrameOf(payloads[0]).value + Frames(payloads[1..])
  }

  /* The reader */

  datatype Reader =
    | AwaitHeader(got: Bytes)
    | AwaitBody(size: nat, got: Bytes)
    | Broken
  {
    predicate Valid() {
      match this
      case AwaitHeader(got) => |got| < HEADER_LENGTH
      case AwaitBody(size, got) => |got| < size
      case Broken => true
    }
  }

  const START: Reader := AwaitHeader([])

  datatype Fed = Fed(reader: Reader, delivered: seq<Bytes>)

  /** One more byte. A body of size zero is complete as soon as its header is. */
  function FeedByte(r: Reader, b: Byte): (f: Fed)
    requires r.Valid()
    ensures f.reader.Valid()
  {
    match r
    case AwaitHeader(got) =>
      if |got| + 1 < HEADER_LENGTH then Fed(AwaitHeader(got + [b]), [])
      else
        (match ParseSize(got + [b])
         case None => Fed(Broken, [])
         case Some(size) => if size == 0 then Fed(START, [[]]) else Fed(AwaitBody(size, []), []))
    case AwaitBody(size, got) =>
      if |got| + 1 < size then Fed(AwaitBody(size, got + [b]), [])
      else Fed(START, [got + [b]])
    case Broken => Fed(Broken, [])
  }

  function Feed(r: Reader, bytes: Bytes): (f: Fed)
    requires r.Valid()
    ensures f.reader.Valid()
    decreases |bytes|
  {
    if bytes == [] then Fed(r, [])
    else
      var first := FeedByte(r, bytes[0]);
      var rest := Feed(first.reader, bytes[1..]);
      Fed(rest.reader, first.delivered + rest.delivered)
  }

  /** The same bytes arriving in arbitrary pieces. */
  function FeedChunks(r: Reader, chunks: seq<Bytes>): (f: Fed)
    requires r.Valid()
    ensures f.reader.Valid()
    decreases |chunks|
  {
    if chunks == [] then Fed(r, [])
    else
      var first := Feed(r, chunks[0]);
      var rest := FeedChunks(first.reader, chunks[1..]);
      Fed(rest.reader, first.delivered + rest.delivered)
  }

  function Concat(chunks: seq<Bytes>): Bytes {
    if chunks == [] then [] else chunks[0] + Concat(chunks[1..])
  }

  lemma {:induction false} FeedAppend(r: Reader, a: Bytes, b: Bytes)
    requires r.Valid()
    ensures Feed(r, a + b).reader == Feed(Feed(r, a).reader, b).reader
    ensures Feed(r, a + b).delivered == Feed(r, a).delivered + Feed(Feed(r, a).reader, b).delivered
    decreases |a|
  {
    if a == [] {
      assert a + b == b;
    } else {
      assert (a + b)[1..] == a[1..] + b;
      FeedAppend(FeedByte(r, a[0]).reader, a[1..], b);
    }
  }

  /** How the bytes are cut into pieces makes no difference. */
  lemma {:induction false} ChunkingIsIrrelevant(r: Reader, chunks: seq<Bytes>)
    requires r.Valid()
    ensures FeedChunks(r, chunks) == Feed(r, Concat(chunks))
    decreases |chunks|
  {
    if chunks != [] {
      FeedAppend(r, chunks[0], Concat(chunks[1..]));
      ChunkingIsIrrelevant(Feed(r, chunks[0]).reader, chunks[1..]);
    }
  }

  lemma {:induction false} FeedPartOfHeader(got: Bytes, more: Bytes)
    requires |got| + |more| < HEADER_LENGTH
    ensures Feed(AwaitHeader(got), more) == Fed(AwaitHeader(got + more), [])
    decreases |more|
  {
    if more == [] {
      assert got + more == got;
    } else {
      assert got + more == (got + [more[0]]) + more[1..];
      FeedPartOfHeader(got + [more[0]], more[1..]);
    }
  }

  lemma {:induction false} FeedPartOfBody(size: nat, got: Bytes, more: Bytes)
    requires |got| + |more| < size
    ensures Feed(AwaitBody(size, got), more) == Fed(AwaitBody(size, got + more), [])
    decreases |more|
  {
    if more == [] {
      assert got + more == got;
    } else {
      assert got + more == (got + [more[0]]) + more[1..];
      FeedPartOfBody(size, got + [more[0]], more[1..]);
    }
  }

  /** A whole header decides what the reader waits for next. */
  lemma {:induction false} FeedHeader(got: Bytes, more: Bytes)
    requires more != [] && |got| + |more| == HEADER_LENGTH
    ensures var header := got + more;
            Feed(AwaitHeader(got), more) == FeedByte(AwaitHeader(header[..7]), header[7])
    decreases |more|
  {
    if |more| == 1 {
      assert more[1..] == [] && (got + more)[..7] == got;
    } else {
      assert got + more == (got + [more[0]]) + more[1..];
      FeedHeader(got + [more[0]], more[1..]);
    }
  }

  lemma {:induction false} FeedBody(size: nat, got: Bytes, more: Bytes)
    requires more != [] && |got| + |more| == size
    ensures Feed(AwaitBody(size, got), more) == Fed(START, [got + more])
    decreases |more|
  {
    if |more| == 1 {
      assert more[1..] == [] && more == [more[0]];
    } else {
      assert got + more == (got + [more[0]]) + more[1..];
      FeedBody(size, got + [more[0]], more[1..]);
    }
  }

  /** `vector::resize`, filling with zeros. */
  function Resized(buffer: Bytes, size: nat): (b: Bytes)
    ensures |b| == size
    ensures forall i :: 0 <= i < size ==> b[i] == if i < |buffer| then buffer[i] else '\0'
  {
    if size <= |buffer| then buffer[..size] else buffer + seq(size - |buffer|, _ => '\0')
  }

  /** A read of `size` bytes into the resized buffer: what has not arrived leaves old bytes behind. */
  function Filled(buffer: Bytes, size: nat, arrived: Bytes): (b: Bytes)
    ensures |b| == size
    ensures |arrived| >= size ==> b == arrived[..size]
    ensures |arrived| < size ==> arrived <= b && b[|arrived|..] == Resized(buffer, size)[|arrived|..]
  {
    if |arrived| >= size then arrived[..size] else arrived + Resized(buffer, size)[|arrived|..]
  }

  /** One attempt to take one frame off the front of a stream: eight bytes, then the body. */
  datatype Attempt =
    | NeedMore
    | BadHeader(after: Bytes)
    | Got(payload: Bytes, rest: Bytes)

  function TryRead(s: Bytes): (a: Attempt)
  {
    if |s| < HEADER_LENGTH then NeedMore
    else
      var after := s[HEADER_LENGTH..];
      match ParseSize(s[..HEADER_LENGTH])
      case None => BadHeader(after)
      case Some(size) => if |after| < size then NeedMore else Got(after[..size], after[size..])
  }

  lemma {:induction false} BrokenStaysBroken(bytes: Bytes)
    ensures Feed(Broken, bytes) == Fed(Broken, [])
    decreases |bytes|
  {
    if bytes != [] {
      BrokenStaysBroken(bytes[1..]);
    }
  }

  lemma FeedWholeHeader(header: Bytes, after: Bytes)
    requires |header| == HEADER_LENGTH
    ensures Feed(START, header + after)
         == match ParseSize(header)
            case None => Fed(Broken, [])
            case Some(size) =>
              if size == 0 then Fed(Feed(START, after).reader, [[]] + Feed(START, after).delivered)
              else Feed(AwaitBody(size, []), after)
  {
    assert [] + header == header && header[..7] + [header[7]] == header;
    FeedHeader([], header);
    FeedAppend(START, header, after);
    BrokenStaysBroken(after);
  }

  lemma FeedWholeBody(body: Bytes, rest: Bytes)
    requires body != []
    ensures Feed(AwaitBody(|body|, []), body + rest)
         == Fed(Feed(START, rest).reader, [body] + Feed(START, rest).delivered)
  {
    assert [] + body == body;
    FeedBody(|body|, [], body);
    FeedAppend(AwaitBody(|body|, []), body, rest);
  }

  lemma FeedBodyOf(size: nat, after: Bytes)
    requires size > 0
    ensures |after| < size ==> Feed(AwaitBody(size, []), after) == Fed(AwaitBody(size, after), [])
    ensures |after| >= size ==>
              Feed(AwaitBody(size, []), after)
              == Fed(Feed(START, after[size..]).reader, [after[..size]] + Feed(START, after[size..]).delivered)
  {
    if |after| < size {
      assert [] + after == after;
      FeedPartOfBody(size, [], after);
    } else {
      assert after == after[..size] + after[size..];
      FeedWholeBody(after[..size], after[size..]);
    }
  }

  /** The reader fed byte by byte, and the reader that takes whole frames, deliver the same. */
  lemma TryReadIsFeed(s: Bytes)
    ensures match TryRead(s)
            case NeedMore => Feed(START, s).delivered == [] && Feed(START, s).reader != Broken
            case BadHeader(_) => Feed(START, s) == Fed(Broken, [])
            case Got(payload, rest) =>
              Feed(START, s) == Fed(Feed(START, rest).reader, [payload] + Feed(START, rest).delivered)
  {
    if |s| < HEADER_LENGTH {
      assert [] + s == s;
      FeedPartOfHeader([], s);
    } else {
      var header, after := s[..HEADER_LENGTH], s[HEADER_LENGTH..];
      assert s == header + after;
      FeedWholeHeader(header, after);
      if ParseSize(header).Some? && ParseSize(header).value > 0 {
        FeedBodyOf(ParseSize(header).value, after);
      }
    }
  }

  /** On a prefix of one frame nothing can be read until the frame is complete. */
  lemma TryReadPrefix(payload: Bytes, s: Bytes)
    requires FrameOf(payload).Some? && s <= FrameOf(payload).value
    ensures TryRead(s) == if s == FrameOf(payload).value then Got(payload, []) else NeedMore
  {
    var frame := FrameOf(payload).value;
    HeaderRoundTrip(|payload|);
    if |s| >= HEADER_LENGTH {
      assert s[..HEADER_LENGTH] == frame[..HEADER_LENGTH] == PrintHeader(|payload|).value;
    }
    if |s| == |frame| {
      assert s == frame;
      assert frame[HEADER_LENGTH..] == payload && payload[..|payload|] == payload;
    }
  }

  /** Once eight bytes of a frame have arrived, they give the length of its payload, and what follows is
      the beginning of it. */
  lemma PrefixParts(payload: Bytes, s: Bytes)
    requires FrameOf(payload).Some? && s <= FrameOf(payload).value && |s| >= HEADER_LENGTH
    ensures ParseSize(s[..HEADER_LENGTH]) == Some(|payload|)
    ensures s[HEADER_LENGTH..] <= payload
  {
    var frame := FrameOf(payload).value;
    HeaderRoundTrip(|payload|);
    assert s[..HEADER_LENGTH] == frame[..HEADER_LENGTH] == PrintHeader(|payload|).value;
    assert s[HEADER_LENGTH..] == frame[..|s|][HEADER_LENGTH..] == payload[..|s| - HEADER_LENGTH];
  }

  /** A frame followed by anything is read off whole. */
  lemma TryReadFrame(payload: Bytes, rest: Bytes)
    requires FrameOf(payload).Some?
    ensures TryRead(FrameOf(payload).value + rest) == Got(payload, rest)
  {
    var header := PrintHeader(|payload|).value;
    var s := FrameOf(payload).value + rest;
    HeaderRoundTrip(|payload|);
    assert s == header + (payload + rest);
    assert s[..HEADER_LENGTH] == header && s[HEADER_LENGTH..] == payload + rest;
    assert (payload + rest)[..|payload|] == payload && (payload + rest)[|payload|..] == rest;
  }

  /** Framing, cutting the bytes into arbitrary pieces and reading returns the payloads. */
  lemma FramingRoundTrip(payloads: seq<Bytes>, chunks: seq<Bytes>)
    requires AllFit(payloads) && Concat(chunks) == Frames(payloads)
    ensures FeedChunks(START, chunks) == Fed(START, payloads)
  {
    ChunkingIsIrrelevant(START, chunks);
    FeedFrames(payloads);
  }

  lemma {:induction false} FeedFrames(payloads: seq<Bytes>)
    requires AllFit(payloads)
    ensures Feed(START, Frames(payloads)) == Fed(START, payloads)
    decreases |payloads|
  {
    if payloads != [] {
      TryReadFrame(payloads[0], Frames(payloads[1..]));
      TryReadIsFeed(Frames(payloads));
      FeedFrames(payloads[1..]);
    }
  }

  /** Exactly the payloads whose frames lie wholly within `s` were delivered, and no invalid
      header was seen. */
  ghost predicate DeliversWholeFrames(payloads: seq<Bytes>, s: Bytes, f: Fed)
    requires AllFit(payloads)
  {
    && f.reader != Broken
    && f.delivered <= payloads
    && |Frames(payloads[..|f.delivered|])| <= |s|
    && (|f.delivered| < |payloads| ==> |s| < |Frames(payloads[..|f.delivered| + 1])|)
  }

  lemma FramesOfMore(payloads: seq<Bytes>, m: nat)
    requires AllFit(payloads) && 0 < m <= |payloads|
    ensures |Frames(payloads[..m])| == |FrameOf(payloads[0]).value| + |Frames(payloads[1..][..m - 1])|
  {
    assert payloads[..m][1..] == payloads[1..][..m - 1];
  }

  lemma CutInFirstFrame(payloads: seq<Bytes>, s: Bytes)
    requires AllFit(payloads) && payloads != [] && s <= Frames(payloads)
    requires |s| < |FrameOf(payloads[0]).value|
    ensures DeliversWholeFrames(payloads, s, Feed(START, s))
  {
    assert s == Frames(payloads)[..|s|] == FrameOf(payloads[0]).value[..|s|];
    TryReadPrefix(payloads[0], s);
    TryReadIsFeed(s);
    FramesOfMore(payloads, 1);
  }

  lemma CutAfterFirstFrame(payloads: seq<Bytes>, s: Bytes, tail: Bytes)
    requires AllFit(payloads) && payloads != []
    requires s == FrameOf(payloads[0]).value + tail
    requires DeliversWholeFrames(payloads[1..], tail, Feed(START, tail))
    ensures DeliversWholeFrames(payloads, s, Feed(START, s))
  {
    assert Feed(START, s).delivered == [payloads[0]] + Feed(START, tail).delivered
        && Feed(START, s).reader == Feed(START, tail).reader by {
      TryReadFrame(payloads[0], tail);
      TryReadIsFeed(s);
    }
    var m := |Feed(START, tail).delivered|;
    FramesOfMore(payloads, m + 1);
    if m + 1 < |payloads| {
      FramesOfMore(payloads, m + 2);
    }
  }

  /** On a stream cut off after any byte, exactly the payloads whose frames lie wholly within the
      prefix are delivered, and the reader does not take the cut for an invalid header. */
  lemma {:induction false} PrefixSafety(payloads: seq<Bytes>, s: Bytes)
    requires AllFit(payloads) && s <= Frames(payloads)
    ensures DeliversWholeFrames(payloads, s, Feed(START, s))
    decreases |payloads|
  {
    if payloads != [] {
      var first := FrameOf(payloads[0]).value;
      if |s| < |first| {
        CutInFirstFrame(payloads, s);
      } else {
        var tail := s[|first|..];
        assert s == first + tail;
        assert tail == Frames(payloads)[..|s|][|first|..] == Frames(payloads[1..])[..|tail|];
        PrefixSafety(payloads[1..], tail);
        CutAfterFirstFrame(payloads, s, tail);
      }
    }
  }
}
