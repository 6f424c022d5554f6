/** Cutting a streamed response body into server-sent events and reading their
    payloads. Decoding bytes into text is a parameter. */
module ServerSentEvents {
  import opened Prelude

  const MAXIMUM_EVENT_BYTES: nat := 524_288
  const MAXIMUM_RESPONSE_BYTES: nat := 4_194_304

  datatype Error = ResponseTooLarge | InvalidResponse | Rejected | Interrupted | BodyFailed | Cancelled

  // -------------------------------------------------------------- separators

  predicate LineFeedsAt(s: seq<byte>, i: nat) {
    i + 2 <= |s| && s[i] == LF && s[i + 1] == LF
  }

  predicate ReturnsAt(s: seq<byte>, i: nat) {
    i + 4 <= |s| && s[i] == CR && s[i + 1] == LF && s[i + 2] == CR && s[i + 3] == LF
  }

  /** A separator, LF LF or CR LF CR LF, starts at `i`. */
  predicate SeparatorAt(s: seq<byte>, i: nat) {
    LineFeedsAt(s, i) || ReturnsAt(s, i)
  }

  function Width(s: seq<byte>, i: nat): nat
    requires SeparatorAt(s, i)
  {
    if LineFeedsAt(s, i) then 2 else 4
  }

  /** The first separator of `s` starts at `i`. */
  ghost predicate FirstSeparator(s: seq<byte>, i: nat) {
    SeparatorAt(s, i) && forall j: nat | j < i :: !SeparatorAt(s, j)
  }

  ghost predicate NoSeparator(s: seq<byte>) {
    forall j: nat :: !SeparatorAt(s, j)
  }

  /** What is cut off the front of a buffer. */
  datatype Front = Whole | Event(event: seq<byte>, rest: seq<byte>)

  /** The first place from `i` on where a separator starts, or the length. */
  function SeparatorFrom(s: seq<byte>, i: nat): (k: nat)
    requires i <= |s|
    ensures i <= k <= |s|
    ensures k < |s| ==> SeparatorAt(s, k)
    ensures forall j: nat | i <= j < k :: !SeparatorAt(s, j)
    decreases |s| - i
  {
    if i == |s| || SeparatorAt(s, i) then i else SeparatorFrom(s, i + 1)
  }

  function FrontOf(s: seq<byte>): (front: Front)
    ensures front.Event? ==> |front.event| + |front.rest| < |s|
  {
    var k := SeparatorFrom(s, 0);
    if k == |s| then Whole else Event(s[..k], s[k + Width(s, k)..])
  }

  lemma FrontFacts(s: seq<byte>)
    ensures match FrontOf(s)
      case Whole => NoSeparator(s)
      case Event(event, rest) =>
        FirstSeparator(s, |event|) && event == s[..|event|] && rest == s[|event| + Width(s, |event|)..]
  {
  }

  lemma FirstIsFront(s: seq<byte>, i: nat)
    requires FirstSeparator(s, i)
    ensures FrontOf(s) == Event(s[..i], s[i + Width(s, i)..])
  {
    assert SeparatorFrom(s, 0) == i;
  }

  /** No separator starts before a complete one that it did not start before. */
  lemma SameBytes(s: seq<byte>, more: seq<byte>, j: nat)
    requires exists i: nat :: j < i && SeparatorAt(s, i)
    ensures SeparatorAt(s + more, j) ==> SeparatorAt(s, j)
  {
    var t := s + more;
    assert j + 3 <= |s|;
    assert t[j] == s[j] && t[j + 1] == s[j + 1] && t[j + 2] == s[j + 2];
    if j + 3 == |s| { assert s[j + 1] == LF && s[j + 2] == LF; }
  }

  lemma StillFirst(s: seq<byte>, more: seq<byte>, i: nat)
    requires FirstSeparator(s, i)
    ensures FirstSeparator(s + more, i) && Width(s + more, i) == Width(s, i)
  {
    forall j: nat | j < i
      ensures !SeparatorAt(s + more, j)
    {
      assert !SeparatorAt(s, j);
      SameBytes(s, more, j);
    }
  }

  /** Bytes that arrive later never move a separator that is already complete,
      even when another one is half there. */
  lemma FrontStable(s: seq<byte>, more: seq<byte>)
    requires FrontOf(s).Event?
    ensures FrontOf(s + more) == Event(FrontOf(s).event, FrontOf(s).rest + more)
  {
    FrontFacts(s);
    var i := |FrontOf(s).event|;
    var t := s + more;
    StillFirst(s, more, i);
    FirstIsFront(t, i);
    assert t[..i] == s[..i];
    assert t[i + Width(t, i)..] == s[i + Width(s, i)..] + more;
  }

  // ---------------------------------------------------------- cutting events

  /** The complete events of a byte stream and what is left after them. */
  datatype Cut = Cut(events: seq<seq<byte>>, rest: seq<byte>)

  function CutAll(s: seq<byte>): Cut
    decreases |s|
  {
    match FrontOf(s)
    case Whole => Cut([], s)
    case Event(event, rest) =>
      var c := CutAll(rest);
      Cut([event] + c.events, c.rest)
  }

  /** Cutting in two instalments, the second starting from what was left. */
  lemma {:induction false} CutTwice(s: seq<byte>, more: seq<byte>)
    ensures var first := CutAll(s);
      var second := CutAll(first.rest + more);
      CutAll(s + more) == Cut(first.events + second.events, second.rest)
    decreases |s|
  {
    hide FrontOf;
    if FrontOf(s).Event? {
      var event, rest := FrontOf(s).event, FrontOf(s).rest;
      FrontStable(s, more);
      CutTwice(rest, more);
      var a, b := CutAll(rest).events, CutAll(CutAll(rest).rest + more).events;
      assert [event] + (a + b) == ([event] + a) + b;
    } else {
      assert [] + CutAll(s + more).events == CutAll(s + more).events;
    }
  }

  /** What successive appends cut, all of them together. */
  function CutChunks(buffer: seq<byte>, chunks: seq<seq<byte>>): Cut
    decreases |chunks|
  {
    if chunks == [] then Cut([], buffer)
    else
      var first := CutAll(buffer + chunks[0]);
      var others := CutChunks(first.rest, chunks[1..]);
      Cut(first.events + others.events, others.rest)
  }

  lemma {:induction false} CutRest(s: seq<byte>)
    ensures FrontOf(CutAll(s).rest) == Whole
    decreases |s|
  {
    hide FrontOf;
    if FrontOf(s).Event? { CutRest(FrontOf(s).rest); }
  }

  /** Events do not depend on how the body is cut into chunks. */
  lemma {:induction false} ChunksCutAlike(buffer: seq<byte>, chunks: seq<seq<byte>>)
    requires FrontOf(buffer) == Whole
    ensures CutChunks(buffer, chunks) == CutAll(buffer + Concat(chunks))
    ensures FrontOf(CutChunks(buffer, chunks).rest) == Whole
    decreases |chunks|
  {
    hide FrontOf;
    if chunks == [] {
      assert buffer + Concat(chunks) == buffer;
    } else {
      var more := Concat(chunks[1..]);
      assert buffer + Concat(chunks) == (buffer + chunks[0]) + more;
      CutTwice(buffer + chunks[0], more);
      CutRest(buffer + chunks[0]);
      ChunksCutAlike(CutAll(buffer + chunks[0]).rest, chunks[1..]);
    }
  }

  // ---------------------------------------------------------------- payloads

  /** One character as Swift counts them: the Unicode scalars of a grapheme
      cluster. Carriage return and line feed together are one. */
  type Character = s: string | s != [] witness "x"

  type Text = seq<Character>

  predicate IsNewline(c: Character) {
    c in {"\n", "\r", "\r\n", "\U{000B}", "\U{000C}", "\U{0085}", "\U{2028}", "\U{2029}"}
  }

  const FIELD: Text := ["d", "a", "t", "a", ":"]

  function SplitLines(t: Text): (lines: seq<Text>)
    ensures lines != []
  {
    if t == [] then [[]]
    else
      var others := SplitLines(t[1..]);
      if IsNewline(t[0]) then [[]] + others else [[t[0]] + others[0]] + others[1..]
  }

  function DropSpace(t: Text): Text {
    if t != [] && t[0] == " " then t[1..] else t
  }

  function DataLines(lines: seq<Text>): seq<Text> {
    if lines == [] then []
    else
      var line := lines[0];
      (if FIELD <= line then [DropSpace(line[5..])] else []) + DataLines(lines[1..])
  }

  function Join(lines: seq<Text>): Text {
    if lines == [] then []
    else if |lines| == 1 then lines[0]
    else lines[0] + ["\n"] + Join(lines[1..])
  }

  /** The payload of one event, if it has any data line. */
  function Payload(t: Text): Option<Text> {
    var data := DataLines(SplitLines(t));
    if data == [] then None else Some(Join(data))
  }

  type Decoder = seq<byte> -> Option<Text>

  /** The payloads of a run of events, or the refusal of the first undecodable one. */
  function Payloads(decode: Decoder, events: seq<seq<byte>>): Result<seq<Text>, Error> {
    if events == [] then Success([])
    else match decode(events[0])
      case None => Failure(InvalidResponse)
      case Some(t) =>
        var others := Payloads(decode, events[1..]);
        if others.Failure? then others
        else Success((if Payload(t).Some? then [Payload(t).value] else []) + others.value)
  }

  ghost predicate AllDecode(decode: Decoder, events: seq<seq<byte>>) {
    forall i :: 0 <= i < |events| ==> decode(events[i]).Some?
  }

  lemma {:induction false} PayloadsDecode(decode: Decoder, events: seq<seq<byte>>)
    requires AllDecode(decode, events)
    ensures Payloads(decode, events).Success?
  {
    if events != [] { PayloadsDecode(decode, events[1..]); }
  }

  lemma {:induction false} PayloadsAppend(decode: Decoder, a: seq<seq<byte>>, b: seq<seq<byte>>)
    requires AllDecode(decode, a + b)
    ensures AllDecode(decode, a) && AllDecode(decode, b)
    ensures Payloads(decode, a).Success? && Payloads(decode, b).Success?
    ensures Payloads(decode, a + b) == Success(Payloads(decode, a).value + Payloads(decode, b).value)
  {
    hide Payload;
    assert forall i | 0 <= i < |a| :: a[i] == (a + b)[i];
    assert forall i | 0 <= i < |b| :: b[i] == (a + b)[|a| + i];
    if a == [] {
      assert a + b == b;
      PayloadsDecode(decode, b);
      assert [] + Payloads(decode, b).value == Payloads(decode, b).value;
    } else {
      assert (a + b)[1..] == a[1..] + b;
      PayloadsAppend(decode, a[1..], b);
      var t := decode(a[0]).value;
      var head := if Payload(t).Some? then [Payload(t).value] else [];
      var x, y := Payloads(decode, a[1..]).value, Payloads(decode, b).value;
      assert head + (x + y) == (head + x) + y;
    }
  }

  // -------------------------------------------------------------- the parser

  datatype Parsed = Parsed(payloads: Result<seq<Text>, Error>, buffer: seq<byte>)

  function Drained(decode: Decoder, b: seq<byte>): Parsed
    decreases |b|
  {
    match FrontOf(b)
    case Whole => Parsed(Success([]), b)
    case Event(event, rest) =>
      match decode(event)
      case None => Parsed(Failure(InvalidResponse), rest)
      case Some(t) =>
        var others := Drained(decode, rest);
        match others.payloads
        case Failure(e) => others
        case Success(ps) =>
          Parsed(Success((if Payload(t).Some? then [Payload(t).value] else []) + ps), others.buffer)
  }

  /** One append. A refusal for size keeps the bytes; an undecodable event is
      dropped together with everything before it, and cutting stops there. */
  function Appended(decode: Decoder, buffer: seq<byte>, data: seq<byte>): Parsed {
    var b := buffer + data;
    if |b| > MAXIMUM_EVENT_BYTES then Parsed(Failure(ResponseTooLarge), b)
    else Drained(decode, b)
  }

  predicate OnlyBreaks(b: seq<byte>) {
    forall i :: 0 <= i < |b| ==> b[i] == LF || b[i] == CR
  }

  /** The payloads still in the buffer when the body ends. */
  function Finished(decode: Decoder, b: seq<byte>): Result<seq<Text>, Error> {
    if b == [] || OnlyBreaks(b) then Success([]) else Payloads(decode, [b])
  }

  lemma {:induction false} DrainedIsCut(decode: Decoder, b: seq<byte>)
    requires AllDecode(decode, CutAll(b).events)
    ensures Drained(decode, b) == Parsed(Payloads(decode, CutAll(b).events), CutAll(b).rest)
    ensures Drained(decode, b).payloads.Success?
    decreases |b|
  {
    hide FrontOf;
    if FrontOf(b).Event? {
      var rest := FrontOf(b).rest;
      assert CutAll(b).events[1..] == CutAll(rest).events;
      assert decode(CutAll(b).events[0]).Some?;
      DrainedIsCut(decode, rest);
    }
  }

  /** All payloads of successive appends, when none of them throws. */
  function AppendedAll(decode: Decoder, buffer: seq<byte>, chunks: seq<seq<byte>>): Parsed
    decreases |chunks|
  {
    if chunks == [] then Parsed(Success([]), buffer)
    else
      var first := Appended(decode, buffer, chunks[0]);
      if first.payloads.Failure? then first
      else
        var others := AppendedAll(decode, first.buffer, chunks[1..]);
        if others.payloads.Failure? then others
        else Parsed(Success(first.payloads.value + others.payloads.value), others.buffer)
  }

  /** No append overflows the buffer. */
  predicate Fits(buffer: seq<byte>, chunks: seq<seq<byte>>)
    decreases |chunks|
  {
    chunks == [] ||
    (|buffer| + |chunks[0]| <= MAXIMUM_EVENT_BYTES && Fits(CutAll(buffer + chunks[0]).rest, chunks[1..]))
  }

  /** Appends that do not overflow give the payloads of the events cut. */
  lemma {:induction false} AppendedIsCut(decode: Decoder, buffer: seq<byte>, chunks: seq<seq<byte>>)
    requires Fits(buffer, chunks) && AllDecode(decode, CutChunks(buffer, chunks).events)
    ensures var c := CutChunks(buffer, chunks);
      AppendedAll(decode, buffer, chunks) == Parsed(Payloads(decode, c.events), c.rest)
      && Payloads(decode, c.events).Success?
    decreases |chunks|
  {
    hide FrontOf, CutAll;
    if chunks != [] {
      var first := CutAll(buffer + chunks[0]);
      var others := CutChunks(first.rest, chunks[1..]);
      PayloadsAppend(decode, first.events, others.events);
      DrainedIsCut(decode, buffer + chunks[0]);
      AppendedIsCut(decode, first.rest, chunks[1..]);
    }
  }

  /** The appends refuse for size if and only if one of them overflows. */
  lemma {:induction false} OverflowExactly(decode: Decoder, buffer: seq<byte>, chunks: seq<seq<byte>>)
    requires AllDecode(decode, CutChunks(buffer, chunks).events)
    ensures AppendedAll(decode, buffer, chunks).payloads == Failure(ResponseTooLarge) <==> !Fits(buffer, chunks)
    decreases |chunks|
  {
    hide FrontOf, CutAll, Drained;
    if chunks != [] && |buffer| + |chunks[0]| <= MAXIMUM_EVENT_BYTES {
      var first := CutAll(buffer + chunks[0]);
      var others := CutChunks(first.rest, chunks[1..]);
      PayloadsAppend(decode, first.events, others.events);
      DrainedIsCut(decode, buffer + chunks[0]);
      OverflowExactly(decode, first.rest, chunks[1..]);
    }
  }

  /** An append that fits throws if and only if an event in it does not decode. */
  lemma {:induction false} DrainedExactly(decode: Decoder, b: seq<byte>)
    ensures Drained(decode, b).payloads.Success? <==> AllDecode(decode, CutAll(b).events)
    ensures Drained(decode, b).payloads.Failure? ==> Drained(decode, b).payloads.error == InvalidResponse
    decreases |b|
  {
    hide FrontOf, Payload;
    if FrontOf(b).Event? {
      var rest := FrontOf(b).rest;
      var events := CutAll(b).events;
      DrainedExactly(decode, rest);
      assert events == [FrontOf(b).event] + CutAll(rest).events;
      assert AllDecode(decode, CutAll(rest).events) && decode(FrontOf(b).event).Some? ==> AllDecode(decode, events);
      assert forall i | 0 <= i < |events| - 1 :: events[i + 1] == CutAll(rest).events[i];
      assert events[0] == FrontOf(b).event;
    }
  }

  /** The payloads of a whole body: its events, then what is left at the end. */
  function BodyPayloads(decode: Decoder, body: seq<byte>): Result<seq<Text>, Error> {
    var c := CutAll(body);
    var a, b := Payloads(decode, c.events), Finished(decode, c.rest);
    if a.Failure? then a else if b.Failure? then b else Success(a.value + b.value)
  }

  ghost predicate BodyDecodes(decode: Decoder, body: seq<byte>) {
    AllDecode(decode, CutAll(body).events) && Finished(decode, CutAll(body).rest).Success?
  }

  /** Successive appends and a finish give what one append of the whole body
      and a finish would give, wherever the body is cut. */
  lemma ParserSplitIndependence(decode: Decoder, chunks: seq<seq<byte>>)
    requires Fits([], chunks) && BodyDecodes(decode, Concat(chunks))
    ensures var all := AppendedAll(decode, [], chunks);
      && all.payloads.Success? && Finished(decode, all.buffer).Success?
      && BodyPayloads(decode, Concat(chunks))
           == Success(all.payloads.value + Finished(decode, all.buffer).value)
  {
    assert FrontOf([]) == Whole;
    assert [] + Concat(chunks) == Concat(chunks);
    ChunksCutAlike([], chunks);
    AppendedIsCut(decode, [], chunks);
  }

  // ------------------------------------------------------- when a body fits

  /** Every event of the body, with its separator, and the tail are this short. */
  predicate EventsWithin(s: seq<byte>, limit: nat)
    decreases |s|
  {
    match FrontOf(s)
    case Whole => |s| <= limit
    case Event(event, rest) => |s| - |rest| <= limit && EventsWithin(rest, limit)
  }

  /** A buffer without a separator is a piece of the next event. */
  lemma PieceWithin(buffer: seq<byte>, more: seq<byte>, limit: nat)
    requires FrontOf(buffer) == Whole && EventsWithin(buffer + more, limit)
    ensures |buffer| <= limit
  {
    FrontFacts(buffer);
    FrontFacts(buffer + more);
    var s := buffer + more;
    var front := FrontOf(s);
    if front.Event? {
      var i := |front.event|;
      assert forall k | 0 <= k < |buffer| :: buffer[k] == s[k];
      assert !SeparatorAt(buffer, i);
    }
  }

  lemma {:induction false} EventsWithinRest(s: seq<byte>, more: seq<byte>, limit: nat)
    requires EventsWithin(s + more, limit)
    ensures EventsWithin(CutAll(s).rest + more, limit)
    decreases |s|
  {
    hide FrontOf;
    if FrontOf(s).Event? {
      FrontStable(s, more);
      EventsWithinRest(FrontOf(s).rest, more, limit);
    }
  }

  /** The buffer holds a piece of one event only, so a body whose events are
      shorter than the limit by one chunk never overflows it. */
  lemma {:induction false} ShortEventsFit(buffer: seq<byte>, chunks: seq<seq<byte>>, chunk: nat)
    requires chunk <= MAXIMUM_EVENT_BYTES && FrontOf(buffer) == Whole
    requires forall i :: 0 <= i < |chunks| ==> |chunks[i]| <= chunk
    requires EventsWithin(buffer + Concat(chunks), MAXIMUM_EVENT_BYTES - chunk)
    ensures Fits(buffer, chunks)
    decreases |chunks|
  {
    hide FrontOf;
    if chunks != [] {
      var more := Concat(chunks);
      assert |chunks[0]| <= chunk;
      PieceWithin(buffer, more, MAXIMUM_EVENT_BYTES - chunk);
      var b, rest := buffer + chunks[0], Concat(chunks[1..]);
      assert buffer + more == b + rest;
      EventsWithinRest(b, rest, MAXIMUM_EVENT_BYTES - chunk);
      CutRest(b);
      ShortEventsFit(CutAll(b).rest, chunks[1..], chunk);
    }
  }
}
