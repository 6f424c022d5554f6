/** Newline-delimited framing: the decoder that cuts arbitrary reads into lines. */
module JsonLines {
  import opened Prelude

  const MAX_JSONL_LINE_BYTES: nat := 65_536
  const READ_BUFFER_BYTES: nat := 8_192

  datatype Error =
    | MalformedProtocol | CorrelationFailed | TimedOut | ForbiddenAction
    | NotificationQueueFull | LineTooLarge | ResponseTooLarge | RequestTooLarge
    | EndOfStream | TransportFailed | AuthenticationRequired | RequestRejected

  // ---------------------------------------------------------------- reference

  /** What the front of a byte stream holds, read in one pass. */
  datatype Front =
    | Line(line: seq<byte>, rest: seq<byte>)
    | TooLong
    | Blank(rest: seq<byte>)
    | Partial

  function FrontOf(s: seq<byte>): (front: Front)
    ensures front.Line? ==> 0 < |front.line| <= MAX_JSONL_LINE_BYTES && |front.line| + |front.rest| < |s|
    ensures front.Blank? ==> |front.rest| < |s|
    ensures front.Partial? ==> |s| <= MAX_JSONL_LINE_BYTES
  {
    var k := LineFeedAt(s);
    if k > MAX_JSONL_LINE_BYTES then TooLong
    else if k == |s| then Partial
    else
      var line := if k > 0 && s[k - 1] == CR then s[..k - 1] else s[..k];
      if line == [] then Blank(s[k + 1..]) else Line(line, s[k + 1..])
  }

  /** The lines heard before the first error, and that error. */
  datatype Heard = Heard(lines: seq<seq<byte>>, end: Error)

  function Also(line: seq<byte>, h: Heard): Heard {
    Heard([line] + h.lines, h.end)
  }

  /** The one-pass split of a whole, finished stream. */
  function Lines(s: seq<byte>): Heard
    decreases |s|
  {
    match FrontOf(s)
    case Line(line, rest) => Also(line, Lines(rest))
    case TooLong => Heard([], LineTooLarge)
    case Blank(_) => Heard([], MalformedProtocol)
    case Partial => Heard([], EndOfStream)
  }

  // ------------------------------------------------------------- incremental

  /** What one await on the transport can bring: bytes (none at end of file),
      the caller's deadline, or a fault. A finished schedule reads as end of file. */
  datatype Read = Chunk(bytes: seq<byte>) | Expired | Fault

  datatype Received = Received(result: Result<seq<byte>, Error>, buffer: seq<byte>, feed: seq<Read>)

  /** The buffer after a push, refused or not. A refused push keeps the bytes
      only when they held a line feed. */
  function Pushed(buffer: seq<byte>, bytes: seq<byte>): (r: Result<seq<byte>, seq<byte>>)
    ensures r.Success? ==> r.value == buffer + bytes
    ensures r.Failure? ==> r.error == buffer || r.error == buffer + bytes
  {
    if |buffer| + |bytes| > MAX_JSONL_LINE_BYTES && LineFeedAt(bytes) == |bytes| then Failure(buffer)
    else
      var next := buffer + bytes;
      if MAX_JSONL_LINE_BYTES < LineFeedAt(next) < |next| then Failure(next) else Success(next)
  }

  /** One call that waits for the next line. */
  function Receive(buffer: seq<byte>, feed: seq<Read>): (r: Received)
    ensures |r.feed| <= |feed|
    ensures r.result.Success? && |r.feed| == |feed| ==> |r.buffer| < |buffer|
    ensures r.result == Failure(TimedOut) ==> |r.feed| < |feed|
    decreases |feed|
  {
    match FrontOf(buffer)
    case Line(line, rest) => Received(Success(line), rest, feed)
    case TooLong => Received(Failure(LineTooLarge), buffer, feed)
    case Blank(rest) => Received(Failure(MalformedProtocol), rest, feed)
    case Partial =>
      if feed == [] || feed[0] == Chunk([]) then
        Received(Failure(EndOfStream), buffer, if feed == [] then [] else feed[1..])
      else match feed[0]
        case Expired => Received(Failure(TimedOut), buffer, feed[1..])
        case Fault => Received(Failure(TransportFailed), buffer, feed[1..])
        case Chunk(bytes) =>
          match Pushed(buffer, bytes)
          case Success(next) => Receive(next, feed[1..])
          case Failure(next) => Received(Failure(LineTooLarge), next, feed[1..])
  }

  /** Waiting again and again, through deadlines, until a real error. */
  function Deliver(buffer: seq<byte>, feed: seq<Read>): Heard
    decreases |feed|, |buffer|
  {
    var r := Receive(buffer, feed);
    match r.result
    case Success(line) => Also(line, Deliver(r.buffer, r.feed))
    case Failure(e) => if e == TimedOut then Deliver(r.buffer, r.feed) else Heard([], e)
  }

  /** A fault, or the end of file. */
  predicate Breaks(r: Read) {
    r == Fault || r == Chunk([])
  }

  /** The bytes a schedule brings before its first break, deadlines left out. */
  function Wire(feed: seq<Read>): seq<byte> {
    if feed == [] || Breaks(feed[0]) then []
    else (if feed[0].Chunk? then feed[0].bytes else []) + Wire(feed[1..])
  }

  /** The error that the first break is reported as. */
  function Cause(feed: seq<Read>): Error {
    if feed == [] || feed[0] == Chunk([]) then EndOfStream
    else if feed[0] == Fault then TransportFailed
    else Cause(feed[1..])
  }

  /** What is heard when the end of the stream has this cause. */
  function Because(h: Heard, cause: Error): Heard {
    if h.end == EndOfStream then Heard(h.lines, cause) else h
  }

  ghost predicate Sized(feed: seq<Read>) {
    forall i :: 0 <= i < |feed| && feed[i].Chunk? ==> |feed[i].bytes| <= READ_BUFFER_BYTES
  }

  // ------------------------------------------------------------------ proofs

  lemma NoLineFeed(s: seq<byte>)
    ensures LineFeedAt(s) == |s| <==> LF !in s
  {
    if LineFeedAt(s) == |s| { assert s[..|s|] == s; }
  }

  /** A verdict on a prefix is the verdict on every continuation of it. */
  lemma FrontStable(s: seq<byte>, more: seq<byte>)
    ensures match FrontOf(s)
      case Line(line, rest) => FrontOf(s + more) == Line(line, rest + more)
      case TooLong => FrontOf(s + more) == TooLong
      case Blank(rest) => FrontOf(s + more) == Blank(rest + more)
      case Partial => true
  {
    var k := LineFeedAt(s);
    LineFeedStable(s, more);
    if k < |s| {
      assert (s + more)[k + 1..] == s[k + 1..] + more;
      assert (s + more)[..k] == s[..k];
      if k > 0 { assert (s + more)[..k - 1] == s[..k - 1]; }
    }
  }

  lemma PushRefused(buffer: seq<byte>, bytes: seq<byte>, more: seq<byte>)
    requires FrontOf(buffer) == Partial
    ensures Pushed(buffer, bytes).Failure? ==> FrontOf(buffer + bytes + more) == TooLong
    ensures Pushed(buffer, bytes).Success? ==> Pushed(buffer, bytes).value == buffer + bytes
  {
    LineFeedStable(buffer, bytes);
    LineFeedStable(buffer + bytes, more);
  }

  /** A push is refused if and only if no continuation of the stream can yield
      its next line. */
  lemma PushRefusal(buffer: seq<byte>, bytes: seq<byte>)
    requires FrontOf(buffer) == Partial
    ensures Pushed(buffer, bytes).Failure? <==> forall more :: FrontOf(buffer + bytes + more) == TooLong
  {
    forall more
      ensures Pushed(buffer, bytes).Failure? ==> FrontOf(buffer + bytes + more) == TooLong
    {
      PushRefused(buffer, bytes, more);
    }
    LineFeedStable(buffer, bytes);
    LineFeedStable(buffer + bytes, [LF]);
    assert Pushed(buffer, bytes).Success? ==> FrontOf(buffer + bytes + [LF]) != TooLong;
  }

  /** However a stream is cut into reads, wherever deadlines fall between them
      and whatever breaks it off, the lines and the first error are those of the
      one-pass split of what came before the break, and the error is that of the
      break whenever the split itself only runs out of bytes. */
  lemma {:induction false} SplitIndependence(buffer: seq<byte>, feed: seq<Read>)
    ensures Deliver(buffer, feed) == Because(Lines(buffer + Wire(feed)), Cause(feed))
    decreases |feed|, |buffer|
  {
    hide FrontOf, Pushed;
    FrontStable(buffer, Wire(feed));
    match FrontOf(buffer)
    case Line(line, rest) => SplitIndependence(rest, feed);
    case TooLong =>
    case Blank(rest) =>
    case Partial =>
      if feed == [] || Breaks(feed[0]) {
        assert buffer + Wire(feed) == buffer;
      } else {
        var more := Wire(feed[1..]);
        match feed[0]
        case Expired =>
          assert buffer + Wire(feed) == buffer + more;
          SplitIndependence(buffer, feed[1..]);
        case Chunk(bytes) =>
          assert buffer + Wire(feed) == buffer + bytes + more;
          PushRefused(buffer, bytes, more);
          if Pushed(buffer, bytes).Success? {
            assert Receive(buffer, feed) == Receive(buffer + bytes, feed[1..]);
            SplitIndependence(buffer + bytes, feed[1..]);
          }
      }
  }

  /** One turn of the read loop, seen from the whole wait. */
  lemma ReceiveOnce(buffer: seq<byte>, feed: seq<Read>)
    ensures var front, r := FrontOf(buffer), Receive(buffer, feed);
      && (front.Line? ==> r == Received(Success(front.line), front.rest, feed))
      && (front.TooLong? ==> r == Received(Failure(LineTooLarge), buffer, feed))
      && (front.Blank? ==> r == Received(Failure(MalformedProtocol), front.rest, feed))
      && (front.Partial? && feed == [] ==> r == Received(Failure(EndOfStream), buffer, []))
      && (front.Partial? && feed != [] ==>
            var rest := feed[1..];
            && (feed[0] == Expired ==> r == Received(Failure(TimedOut), buffer, rest))
            && (feed[0] == Fault ==> r == Received(Failure(TransportFailed), buffer, rest))
            && (feed[0] == Chunk([]) ==> r == Received(Failure(EndOfStream), buffer, rest))
            && (feed[0].Chunk? && feed[0].bytes != [] ==>
                  var pushed := Pushed(buffer, feed[0].bytes);
                  r == if pushed.Success? then Receive(pushed.value, rest)
                       else Received(Failure(LineTooLarge), pushed.error, rest)))
  {
    hide FrontOf, Pushed;
  }

  /** Two cuts of one stream, broken off alike, are heard alike. */
  lemma SameWireSameLines(a: seq<Read>, b: seq<Read>)
    requires Wire(a) == Wire(b) && Cause(a) == Cause(b)
    ensures Deliver([], a) == Deliver([], b)
  {
    SplitIndependence([], a);
    SplitIndependence([], b);
  }

  /** The buffer never holds more than a full line and one read. */
  lemma {:induction false} BufferBound(buffer: seq<byte>, feed: seq<Read>)
    requires Sized(feed) && |buffer| <= MAX_JSONL_LINE_BYTES + READ_BUFFER_BYTES
    ensures |Receive(buffer, feed).buffer| <= MAX_JSONL_LINE_BYTES + READ_BUFFER_BYTES
    ensures Sized(Receive(buffer, feed).feed)
    decreases |feed|
  {
    hide FrontOf, Pushed;
    if FrontOf(buffer).Partial? && feed != [] && feed[0].Chunk? && feed[0].bytes != [] {
      if Pushed(buffer, feed[0].bytes).Success? {
        BufferBound(buffer + feed[0].bytes, feed[1..]);
      }
    }
  }

  /** No line longer than the limit is ever handed on, so the separate response
      limit, which is the same number, can never be the one that refuses. */
  lemma {:induction false} LineBound(buffer: seq<byte>, feed: seq<Read>)
    ensures var r := Receive(buffer, feed).result;
      r.Success? ==> 0 < |r.value| <= MAX_JSONL_LINE_BYTES
    decreases |feed|
  {
    hide FrontOf, Pushed;
    if FrontOf(buffer).Partial? && feed != [] && feed[0].Chunk? && feed[0].bytes != [] {
      if Pushed(buffer, feed[0].bytes).Success? {
        LineBound(Pushed(buffer, feed[0].bytes).value, feed[1..]);
      }
    }
  }

  // -------------------------------------------------------------- round trip

  /** The bytes written for one encoded value. */
  function Framed(message: seq<byte>): seq<byte> {
    message + [LF]
  }

  function FramedAll(messages: seq<seq<byte>>): seq<byte> {
    if messages == [] then [] else Framed(messages[0]) + FramedAll(messages[1..])
  }

  predicate Faithful(message: seq<byte>) {
    message != [] && message[|message| - 1] != CR
  }

  /** A written message without line feeds is read back unchanged exactly when
      it is not empty and does not end in a carriage return. */
  lemma FrameRoundTrip(message: seq<byte>, more: seq<byte>)
    requires LF !in message && |message| <= MAX_JSONL_LINE_BYTES
    ensures FrontOf(Framed(message) + more) == Line(message, more) <==> Faithful(message)
  {
    var s := Framed(message) + more;
    var k := |message|;
    assert s[..k] == message;
    assert s[k] == LF;
    LineFeedUnique(s, k);
    assert s[k + 1..] == more;
    if k > 0 { assert s[..k - 1] == message[..k - 1]; }
  }

  /** The front of a stream whose first line feed comes after this message. */
  lemma FrontAt(message: seq<byte>, more: seq<byte>)
    requires LF !in message
    ensures var s := Framed(message) + more;
      && LineFeedAt(s) == |message| && s[..|message|] == message && s[|message| + 1..] == more
      && (forall k :: 0 <= k < |message| ==> s[..k] == message[..k] && s[k] == message[k])
  {
    var s := Framed(message) + more;
    assert s[..|message|] == message;
    LineFeedUnique(s, |message|);
  }

  /** What the front of a stream is heard as, for every content of its first
      line: without one trailing carriage return, refused when that leaves
      nothing or when it was too long with it. */
  lemma FrontMeaning(message: seq<byte>, more: seq<byte>)
    requires LF !in message
    ensures var front := FrontOf(Framed(message) + more);
      && (|message| > MAX_JSONL_LINE_BYTES ==> front == TooLong)
      && (|message| <= MAX_JSONL_LINE_BYTES ==>
            && (message == [] || message == [CR] ==> front == Blank(more))
            && (Faithful(message) ==> front == Line(message, more)))
    ensures 0 < |message| < MAX_JSONL_LINE_BYTES ==> FrontOf(Framed(message + [CR]) + more) == Line(message, more)
    ensures FrontOf(message) == if |message| > MAX_JSONL_LINE_BYTES then TooLong else Partial
  {
    FrontAt(message, more);
    FrontAt(message + [CR], more);
    assert (message + [CR])[..|message|] == message;
    NoLineFeed(message);
  }

  lemma FrontOfNothing()
    ensures FrontOf([]) == Partial
  {
  }

  lemma {:induction false} LinesOfFrames(messages: seq<seq<byte>>)
    requires forall m <- messages :: LF !in m && |m| <= MAX_JSONL_LINE_BYTES && Faithful(m)
    ensures Lines(FramedAll(messages)) == Heard(messages, EndOfStream)
  {
    hide FrontOf;
    if messages == [] {
      FrontOfNothing();
    } else {
      FrameRoundTrip(messages[0], FramedAll(messages[1..]));
      LinesOfFrames(messages[1..]);
    }
  }

  /** Messages framed by one side come back unchanged on the other, in order,
      for every cut of the bytes, every deadline in between and every break after. */
  lemma FramedMessagesSurvive(messages: seq<seq<byte>>, feed: seq<Read>)
    requires forall m <- messages :: LF !in m && |m| <= MAX_JSONL_LINE_BYTES && Faithful(m)
    requires Wire(feed) == FramedAll(messages)
    ensures Deliver([], feed) == Heard(messages, Cause(feed))
  {
    SplitIndependence([], feed);
    LinesOfFrames(messages);
    assert [] + Wire(feed) == Wire(feed);
  }

  // ------------------------------------------------------------ the decoder

  class JsonlDecoder {
    var buffer: seq<byte>

    constructor ()
      ensures buffer == []
    {
      buffer := [];
    }

    method Push(bytes: seq<byte>) returns (r: Result<(), Error>)
      modifies this
      ensures r == if Pushed(old(buffer), bytes).Success? then Success(()) else Failure(LineTooLarge)
      ensures buffer == match Pushed(old(buffer), bytes)
                case Success(next) => next
                case Failure(next) => next
    {
      NoLineFeed(bytes);
      if |buffer| + |bytes| > MAX_JSONL_LINE_BYTES && LF !in bytes {
        return Failure(LineTooLarge);
      }
      buffer := buffer + bytes;
      var position := Position();
      if position < |buffer| && position > MAX_JSONL_LINE_BYTES {
        return Failure(LineTooLarge);
      }
      return Success(());
    }

    /** The first line feed, found by scanning. */
    method Position() returns (k: nat)
      ensures k == LineFeedAt(buffer)
    {
      k := 0;
      while k < |buffer| && buffer[k] != LF
        invariant k <= |buffer| && LF !in buffer[..k]
      {
        k := k + 1;
      }
      LineFeedUnique(buffer, k);
    }

    /** Takes the next whole line out of the buffer, as the one-pass split would. */
    method NextLine() returns (r: Result<Option<seq<byte>>, Error>)
      modifies this
      ensures match FrontOf(old(buffer))
        case Line(line, rest) => r == Success(Some(line)) && buffer == rest
        case TooLong => r == Failure(LineTooLarge) && buffer == old(buffer)
        case Blank(rest) => r == Failure(MalformedProtocol) && buffer == rest
        case Partial => r == Success(None) && buffer == old(buffer)
    {
      var position := Position();
      if position == |buffer| {
        if |buffer| > MAX_JSONL_LINE_BYTES {
          return Failure(LineTooLarge);
        }
        return Success(None);
      }
      if position > MAX_JSONL_LINE_BYTES {
        return Failure(LineTooLarge);
      }
      var line := buffer[..position + 1];
      buffer := buffer[position + 1..];
      line := line[..|line| - 1];
      assert line == old(buffer)[..position];
      if line != [] && line[|line| - 1] == CR {
        line := line[..|line| - 1];
        assert line == old(buffer)[..position - 1];
      }
      if line == [] {
        return Failure(MalformedProtocol);
      }
      return Success(Some(line));
    }
  }
}
