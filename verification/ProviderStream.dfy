/** Executing a streamed request: payloads are consumed in order until the
    terminal marker, and each becomes provider events. */
module ProviderStream {
  import opened Prelude
  import opened ServerSentEvents

  const DONE: Text := ["[", "D", "O", "N", "E", "]"]

  /** What reading one payload as JSON gives. */
  datatype ChatChunk = Unreadable | ErrorEnvelope | Deltas(contents: seq<string>)

  type Reader = Text -> ChatChunk

  datatype Emitted = Delta(text: string) | Completed

  /** How a run of payloads ends: the marker, a refusal, or more to come. */
  datatype Ending = Reached | Refused(error: Error) | Open

  datatype Execution = Execution(events: seq<Emitted>, end: Ending)

  function NonEmpty(contents: seq<string>): seq<Emitted> {
    if contents == [] then []
    else (if contents[0] != [] then [Delta(contents[0])] else []) + NonEmpty(contents[1..])
  }

  function Consumed(read: Reader, payloads: seq<Text>): Execution {
    if payloads == [] then Execution([], Open)
    else if payloads[0] == DONE then Execution([Completed], Reached)
    else match read(payloads[0])
      case Unreadable => Execution([], Refused(InvalidResponse))
      case ErrorEnvelope => Execution([], Refused(Rejected))
      case Deltas(contents) =>
        var others := Consumed(read, payloads[1..]);
        Execution(NonEmpty(contents) + others.events, others.end)
  }

  /** A stream that ends without the marker is reported as interrupted, or as
      what broke it off. */
  function Closed(x: Execution, fault: Option<Error>): Execution {
    if x.end != Open then x
    else Execution(x.events, Refused(if fault.Some? then fault.value else Interrupted))
  }

  function Then(x: Execution, y: Execution): Execution {
    if x.end == Open then Execution(x.events + y.events, y.end) else x
  }

  /** What follows the last chunk: the rest of the buffer, unless the body was
      broken off by an error or by a cancellation. */
  function Tail(decode: Decoder, read: Reader, rest: seq<byte>, fault: Option<Error>): Execution {
    if fault.Some? then Closed(Execution([], Open), fault)
    else
      var ps := Finished(decode, rest);
      if ps.Failure? then Execution([], Refused(ps.error)) else Closed(Consumed(read, ps.value), None)
  }

  /** The whole body at once. */
  function ExecutedBody(decode: Decoder, read: Reader, body: seq<byte>, fault: Option<Error>): Execution {
    var ps := Payloads(decode, CutAll(body).events);
    if ps.Failure? then Execution([], Refused(ps.error))
    else Then(Consumed(read, ps.value), Tail(decode, read, CutAll(body).rest, fault))
  }

  /** Chunk by chunk, as the bytes arrive. A body is its chunks and what, if
      anything, breaks it off after them. */
  function ExecutedChunks(decode: Decoder, read: Reader, buffer: seq<byte>, received: nat, chunks: seq<seq<byte>>,
                          fault: Option<Error>): Execution
    decreases |chunks|
  {
    if chunks == [] then Tail(decode, read, buffer, fault)
    else if received + |chunks[0]| > MAXIMUM_RESPONSE_BYTES then Execution([], Refused(ResponseTooLarge))
    else
      var p := Appended(decode, buffer, chunks[0]);
      if p.payloads.Failure? then Execution([], Refused(p.payloads.error))
      else Then(Consumed(read, p.payloads.value),
                ExecutedChunks(decode, read, p.buffer, received + |chunks[0]|, chunks[1..], fault))
  }

  // ------------------------------------------------------------------ proofs

  lemma {:induction false} ConsumedAppend(read: Reader, a: seq<Text>, b: seq<Text>)
    ensures Consumed(read, a + b) == Then(Consumed(read, a), Consumed(read, b))
  {
    if a == [] {
      assert a + b == b;
    } else {
      assert (a + b)[1..] == a[1..] + b;
      ConsumedAppend(read, a[1..], b);
      if read(a[0]).Deltas? {
        var h, x, y := NonEmpty(read(a[0]).contents), Consumed(read, a[1..]).events, Consumed(read, b).events;
        assert h + (x + y) == (h + x) + y;
      }
    }
  }

  lemma ThenThen(x: Execution, y: Execution, z: Execution)
    ensures Then(Then(x, y), z) == Then(x, Then(y, z))
  {
    assert x.events + (y.events + z.events) == (x.events + y.events) + z.events;
  }

  lemma ThenNothing(x: Execution, end: Ending)
    ensures x.end == Open ==> Then(x, Execution([], end)) == Execution(x.events, end)
    ensures Then(Execution([], Open), x) == x
  {
    assert x.events + [] == x.events;
    assert [] + x.events == x.events;
  }

  lemma NothingConsumed(read: Reader)
    ensures Consumed(read, []) == Execution([], Open)
  {
  }

  lemma PayloadsNothing(decode: Decoder)
    ensures Payloads(decode, []) == Success([])
  {
  }

  lemma {:induction false} ChunksExecuted(decode: Decoder, read: Reader, buffer: seq<byte>, received: nat,
                                          chunks: seq<seq<byte>>, fault: Option<Error>)
    requires Fits(buffer, chunks) && received + |Concat(chunks)| <= MAXIMUM_RESPONSE_BYTES
    requires AllDecode(decode, CutChunks(buffer, chunks).events)
    ensures var c := CutChunks(buffer, chunks);
      && Payloads(decode, c.events).Success?
      && ExecutedChunks(decode, read, buffer, received, chunks, fault)
           == Then(Consumed(read, Payloads(decode, c.events).value), Tail(decode, read, c.rest, fault))
    decreases |chunks|
  {
    hide CutAll, Drained, Payloads, Tail, Consumed, Then;
    if chunks == [] {
      PayloadsNothing(decode);
      assert Consumed(read, []) == Execution([], Open) by { NothingConsumed(read); }
      ThenNothing(Tail(decode, read, buffer, fault), Open);
    } else {
      var first := CutAll(buffer + chunks[0]);
      var others := CutChunks(first.rest, chunks[1..]);
      PayloadsAppend(decode, first.events, others.events);
      DrainedIsCut(decode, buffer + chunks[0]);
      ChunksExecuted(decode, read, first.rest, received + |chunks[0]|, chunks[1..], fault);
      var a, b := Payloads(decode, first.events).value, Payloads(decode, others.events).value;
      ConsumedAppend(read, a, b);
      ThenThen(Consumed(read, a), Consumed(read, b), Tail(decode, read, others.rest, fault));
      assert |Concat(chunks)| == |chunks[0]| + |Concat(chunks[1..])|;
    }
  }

  /** For every body whose events decode and that stays within the limits, and
      whatever breaks it off, the emitted events and the outcome do not depend
      on how the body is cut. */
  lemma ExecutionSplitIndependence(decode: Decoder, read: Reader, chunks: seq<seq<byte>>, fault: Option<Error>)
    requires Fits([], chunks) && |Concat(chunks)| <= MAXIMUM_RESPONSE_BYTES
    requires AllDecode(decode, CutAll(Concat(chunks)).events)
    ensures ExecutedChunks(decode, read, [], 0, chunks, fault) == ExecutedBody(decode, read, Concat(chunks), fault)
  {
    assert FrontOf([]) == Whole;
    assert [] + Concat(chunks) == Concat(chunks);
    ChunksCutAlike([], chunks);
    ChunksExecuted(decode, read, [], 0, chunks, fault);
  }

  /** The payloads that a body brings: all of them, or those of its complete
      events when it is broken off. */
  ghost predicate Carried(decode: Decoder, body: seq<byte>, fault: Option<Error>, payloads: seq<Text>) {
    && AllDecode(decode, CutAll(body).events)
    && (if fault.Some? then Payloads(decode, CutAll(body).events) == Success(payloads)
        else BodyPayloads(decode, body) == Success(payloads))
  }

  /** Executing a body is consuming the payloads it brings, then its end. */
  lemma BodyConsumed(decode: Decoder, read: Reader, body: seq<byte>, fault: Option<Error>, payloads: seq<Text>)
    requires Carried(decode, body, fault, payloads)
    ensures ExecutedBody(decode, read, body, fault) == Closed(Consumed(read, payloads), fault)
  {
    hide Consumed, CutAll, Payloads, Finished;
    var a := Payloads(decode, CutAll(body).events).value;
    if fault.Some? {
      ThenNothing(Consumed(read, a), Refused(fault.value));
    } else {
      ConsumedAppend(read, a, Finished(decode, CutAll(body).rest).value);
    }
  }

  /** The events of the payloads before the marker. */
  function DeltasOf(read: Reader, payloads: seq<Text>): seq<Emitted> {
    if payloads == [] then []
    else (if read(payloads[0]).Deltas? then NonEmpty(read(payloads[0]).contents) else [])
         + DeltasOf(read, payloads[1..])
  }

  ghost predicate Readable(read: Reader, payloads: seq<Text>) {
    forall i :: 0 <= i < |payloads| ==> payloads[i] != DONE && read(payloads[i]).Deltas?
  }

  lemma {:induction false} ReadableConsumed(read: Reader, payloads: seq<Text>)
    requires Readable(read, payloads)
    ensures Consumed(read, payloads) == Execution(DeltasOf(read, payloads), Open)
  {
    if payloads != [] { ReadableConsumed(read, payloads[1..]); }
  }

  /** The payloads before the marker are deltas, and there is one: then exactly
      their deltas are emitted, then one completion, whatever follows. */
  lemma {:induction false} MarkerCompletes(read: Reader, before: seq<Text>, after: seq<Text>)
    requires Readable(read, before)
    ensures Consumed(read, before + [DONE] + after) == Execution(DeltasOf(read, before) + [Completed], Reached)
  {
    ReadableConsumed(read, before);
    assert before + [DONE] + after == before + ([DONE] + after);
    ConsumedAppend(read, before, [DONE] + after);
  }

  /** A payload that is no deltas, after readable ones: their deltas have been
      emitted, and an error envelope is a rejection, anything else malformed. */
  lemma UnreadableRefuses(read: Reader, before: seq<Text>, bad: Text, after: seq<Text>)
    requires Readable(read, before) && bad != DONE && !read(bad).Deltas?
    ensures Consumed(read, before + [bad] + after)
         == Execution(DeltasOf(read, before), Refused(if read(bad).ErrorEnvelope? then Rejected else InvalidResponse))
  {
    ReadableConsumed(read, before);
    assert before + [bad] + after == before + ([bad] + after);
    ConsumedAppend(read, before, [bad] + after);
    ThenNothing(Consumed(read, before), Consumed(read, [bad] + after).end);
  }

  /** Contents are emitted one by one, the empty ones left out. */
  lemma {:induction false} DeltasEach(contents: seq<string>, more: seq<string>)
    ensures NonEmpty(contents + more) == NonEmpty(contents) + NonEmpty(more)
    ensures forall text :: text != [] ==> NonEmpty([text]) == [Delta(text)]
    ensures NonEmpty([[]]) == []
  {
    var empty: seq<string> := [[]];
    assert empty[1..] == [];
    forall text: string | text != []
      ensures NonEmpty([text]) == [Delta(text)]
    {
      assert [text][1..] == [] && NonEmpty([text]) == [Delta(text)] + NonEmpty([]);
    }
    if contents == [] {
      assert contents + more == more;
    } else {
      assert (contents + more)[1..] == contents[1..] + more;
      DeltasEach(contents[1..], more);
    }
  }

  /** A chunk that takes the body over the limit refuses it; everything in the
      chunks before it has been emitted. */
  lemma {:induction false} OversizeRefused(decode: Decoder, read: Reader, buffer: seq<byte>, received: nat,
                                           chunks: seq<seq<byte>>, over: seq<byte>, after: seq<seq<byte>>,
                                           fault: Option<Error>)
    requires Fits(buffer, chunks) && AllDecode(decode, CutChunks(buffer, chunks).events)
    requires received + |Concat(chunks)| <= MAXIMUM_RESPONSE_BYTES < received + |Concat(chunks)| + |over|
    ensures var c := CutChunks(buffer, chunks);
      && Payloads(decode, c.events).Success?
      && ExecutedChunks(decode, read, buffer, received, chunks + [over] + after, fault)
           == Then(Consumed(read, Payloads(decode, c.events).value), Execution([], Refused(ResponseTooLarge)))
    decreases |chunks|
  {
    hide CutAll, Drained, Payloads, Tail, Consumed, Then;
    var refused := Execution([], Refused(ResponseTooLarge));
    if chunks == [] {
      PayloadsNothing(decode);
      NothingConsumed(read);
      ThenNothing(refused, Open);
      assert (chunks + [over] + after)[0] == over;
    } else {
      var first := CutAll(buffer + chunks[0]);
      var others := CutChunks(first.rest, chunks[1..]);
      PayloadsAppend(decode, first.events, others.events);
      DrainedIsCut(decode, buffer + chunks[0]);
      assert |Concat(chunks)| == |chunks[0]| + |Concat(chunks[1..])|;
      OversizeRefused(decode, read, first.rest, received + |chunks[0]|, chunks[1..], over, after, fault);
      var a, b := Payloads(decode, first.events).value, Payloads(decode, others.events).value;
      ConsumedAppend(read, a, b);
      ThenThen(Consumed(read, a), Consumed(read, b), refused);
      assert (chunks + [over] + after)[1..] == chunks[1..] + [over] + after;
    }
  }

  /** Why all events have to decode: with one that does not, what is emitted
      depends on the cut. Taken in one chunk, the event before it is lost. */
  lemma UndecodableLosesEarlier(decode: Decoder, read: Reader, x: seq<byte>, y: seq<byte>, e: seq<byte>, f: seq<byte>)
    requires CutAll(x) == Cut([e], []) && CutAll(y) == Cut([f], []) && |x| + |y| <= MAXIMUM_EVENT_BYTES
    requires decode(e).Some? && Payload(decode(e).value) == Some(DONE) && decode(f).None?
    ensures ExecutedChunks(decode, read, [], 0, [x, y], None) == Execution([Completed], Reached)
    ensures ExecutedChunks(decode, read, [], 0, [x + y], None) == Execution([], Refused(InvalidResponse))
  {
    hide CutAll, FrontOf, Payload, Tail;
    CutTwice(x, y);
    assert [] + x == x && [] + y == y && [] + (x + y) == x + y && [e] + [f] == [e, f];
    assert AllDecode(decode, [e]);
    DrainedIsCut(decode, x);
    DrainedExactly(decode, x + y);
    assert decode([e, f][1]).None?;
    assert [x, y][1..] == [y];
    assert [e][1..] == [] && Payloads(decode, [e]) == Success([DONE] + []);
    assert [DONE] + [] == [DONE];
  }

  lemma {:induction false} DeltasOnly(contents: seq<string>)
    ensures Completed !in NonEmpty(contents)
    ensures forall e <- NonEmpty(contents) :: e.Delta? && e.text != []
  {
    if contents != [] { DeltasOnly(contents[1..]); }
  }

  lemma {:induction false} ReachedAt(read: Reader, payloads: seq<Text>) returns (k: nat)
    requires Consumed(read, payloads).end == Reached
    ensures k < |payloads| && payloads[k] == DONE && Readable(read, payloads[..k])
  {
    if payloads[0] == DONE {
      k := 0;
    } else {
      k := ReachedAt(read, payloads[1..]);
      k := k + 1;
      assert payloads[..k] == [payloads[0]] + payloads[1..][..k - 1];
    }
  }

  lemma {:induction false} CompletedLast(read: Reader, payloads: seq<Text>)
    ensures var x := Consumed(read, payloads);
      && (Completed in x.events <==> x.end == Reached)
      && (x.end == Reached ==>
            x.events[|x.events| - 1] == Completed && Completed !in x.events[..|x.events| - 1])
  {
    if payloads != [] && payloads[0] != DONE && read(payloads[0]).Deltas? {
      CompletedLast(read, payloads[1..]);
      var h, y := NonEmpty(read(payloads[0]).contents), Consumed(read, payloads[1..]).events;
      DeltasOnly(read(payloads[0]).contents);
      assert y != [] ==> (h + y)[..|h + y| - 1] == h + y[..|y| - 1];
    }
  }

  /** Completion is emitted if and only if the run reaches a marker before any
      payload it cannot read as deltas; it is then emitted once, last. Without
      it the stream ends refused, and when every payload was read, by what broke
      it off or as interrupted. */
  lemma CompletionExactlyAtMarker(read: Reader, payloads: seq<Text>, fault: Option<Error>)
    ensures var x := Closed(Consumed(read, payloads), fault);
      && (x.end == Reached <==>
            exists k :: 0 <= k < |payloads| && payloads[k] == DONE && Readable(read, payloads[..k]))
      && (Completed in x.events <==> x.end == Reached)
      && (x.end == Reached ==>
            x.events[|x.events| - 1] == Completed && Completed !in x.events[..|x.events| - 1])
      && (x.end != Reached ==> x.end.Refused?)
      && (Readable(read, payloads) ==>
            x == Execution(DeltasOf(read, payloads), Refused(if fault.Some? then fault.value else Interrupted)))
  {
    hide Consumed, DeltasOf;
    CompletedLast(read, payloads);
    if Consumed(read, payloads).end == Reached {
      var k := ReachedAt(read, payloads);
    }
    forall k | 0 <= k < |payloads| && payloads[k] == DONE && Readable(read, payloads[..k])
      ensures Consumed(read, payloads).end == Reached
    {
      assert payloads == payloads[..k] + [DONE] + payloads[k + 1..];
      MarkerCompletes(read, payloads[..k], payloads[k + 1..]);
    }
    if Readable(read, payloads) { ReadableConsumed(read, payloads); }
  }

  // --------------------------------------------------------------- the code

  /** Payloads already taken, in front of those still to come. */
  ghost function Prefixed(taken: seq<Text>, p: Parsed): Parsed {
    if p.payloads.Failure? then p else Parsed(Success(taken + p.payloads.value), p.buffer)
  }

  lemma PrefixedNothing(p: Parsed)
    ensures Prefixed([], p) == p
  {
    assert p.payloads.Success? ==> [] + p.payloads.value == p.payloads.value;
  }

  lemma PrefixedTwice(a: seq<Text>, b: seq<Text>, p: Parsed)
    ensures Prefixed(a, Prefixed(b, p)) == Prefixed(a + b, p)
  {
    assert p.payloads.Success? ==> a + (b + p.payloads.value) == (a + b) + p.payloads.value;
  }

  lemma LastPayload(decode: Decoder, b: seq<byte>)
    ensures Payloads(decode, [b]) ==
      if decode(b).None? then Failure(InvalidResponse)
      else Success(if Payload(decode(b).value).Some? then [Payload(decode(b).value).value] else [])
  {
    hide Payload;
    PayloadsNothing(decode);
    assert [b][1..] == [];
    if decode(b).Some? {
      var head := if Payload(decode(b).value).Some? then [Payload(decode(b).value).value] else [];
      assert head + [] == head;
    }
  }

  class ServerSentEventParser {
    var buffer: seq<byte>

    constructor ()
      ensures buffer == []
    {
      buffer := [];
    }

    /** Adds bytes and takes every complete event out, in order. */
    method Append(decode: Decoder, data: seq<byte>) returns (r: Result<seq<Text>, Error>)
      modifies this
      ensures Parsed(r, buffer) == Appended(decode, old(buffer), data)
    {
      hide FrontOf, Payload;
      buffer := buffer + data;
      if |buffer| > MAXIMUM_EVENT_BYTES {
        return Failure(ResponseTooLarge);
      }
      ghost var whole := Drained(decode, buffer);
      var payloads: seq<Text> := [];
      PrefixedNothing(whole);
      while true
        invariant whole == Prefixed(payloads, Drained(decode, buffer))
        decreases |buffer|
      {
        var separator := SeparatorRange();
        if separator.None? { break; }
        var event := buffer[..separator.value.0];
        buffer := buffer[separator.value.1..];
        var text := decode(event);
        PrefixedTwice(payloads, if text.None? || Payload(text.value).None? then [] else [Payload(text.value).value],
                      Drained(decode, buffer));
        assert payloads + [] == payloads;
        if text.None? { return Failure(InvalidResponse); }
        var payload := Payload(text.value);
        if payload.Some? { payloads := payloads + [payload.value]; }
      }
      assert payloads + [] == payloads;
      return Success(payloads);
    }

    /** The bounds of the separator that comes first: where each of the two
        kinds is found, the one that starts earlier. */
    method SeparatorRange() returns (r: Option<(nat, nat)>)
      ensures r.None? ==> FrontOf(buffer) == Whole
      ensures r.Some? ==> r.value.0 <= r.value.1 <= |buffer|
      ensures r.Some? ==> FrontOf(buffer) == Event(buffer[..r.value.0], buffer[r.value.1..])
    {
      var lf := FindLineFeeds();
      var crlf := FindReturns();
      FrontFacts(buffer);
      if lf.None? && crlf.None? {
        return None;
      }
      var first := if crlf.None? || (lf.Some? && lf.value < crlf.value) then (lf.value, lf.value + 2)
                   else (crlf.value, crlf.value + 4);
      FirstIsFront(buffer, first.0);
      r := Some(first);
    }

    method FindLineFeeds() returns (r: Option<nat>)
      ensures r.None? ==> forall j: nat :: !LineFeedsAt(buffer, j)
      ensures r.Some? ==> LineFeedsAt(buffer, r.value) && forall j: nat | j < r.value :: !LineFeedsAt(buffer, j)
    {
      for i := 0 to |buffer|
        invariant forall j: nat | j < i :: !LineFeedsAt(buffer, j)
      {
        if LineFeedsAt(buffer, i) { return Some(i); }
      }
      r := None;
    }

    method FindReturns() returns (r: Option<nat>)
      ensures r.None? ==> forall j: nat :: !ReturnsAt(buffer, j)
      ensures r.Some? ==> ReturnsAt(buffer, r.value) && forall j: nat | j < r.value :: !ReturnsAt(buffer, j)
    {
      for i := 0 to |buffer|
        invariant forall j: nat | j < i :: !ReturnsAt(buffer, j)
      {
        if ReturnsAt(buffer, i) { return Some(i); }
      }
      r := None;
    }

    /** Empties the buffer, reading what is left as one last event. */
    method Finish(decode: Decoder) returns (r: Result<seq<Text>, Error>)
      modifies this
      ensures buffer == [] && r == Finished(decode, old(buffer))
    {
      hide Payload;
      var last := buffer;
      LastPayload(decode, last);
      if last == [] { return Success([]); }
      buffer := [];
      if OnlyBreaks(last) { return Success([]); }
      var text := decode(last);
      if text.None? { return Failure(InvalidResponse); }
      var payload := Payload(text.value);
      r := Success(if payload.Some? then [payload.value] else []);
    }
  }

  /** Consumes payloads until one ends the response. */
  method Consume(read: Reader, payloads: seq<Text>) returns (x: Execution)
    ensures x == Consumed(read, payloads)
  {
    hide NonEmpty;
    var events: seq<Emitted> := [];
    var i := 0;
    while i < |payloads|
      invariant 0 <= i <= |payloads|
      invariant Then(Execution(events, Open), Consumed(read, payloads[i..])) == Consumed(read, payloads)
    {
      assert payloads[i..][1..] == payloads[i + 1..];
      if payloads[i] == DONE { return Execution(events + [Completed], Reached); }
      match read(payloads[i])
      case Unreadable => assert events + [] == events; return Execution(events, Refused(InvalidResponse));
      case ErrorEnvelope => assert events + [] == events; return Execution(events, Refused(Rejected));
      case Deltas(contents) =>
        ghost var rest := Consumed(read, payloads[i + 1..]).events;
        assert events + (NonEmpty(contents) + rest) == (events + NonEmpty(contents)) + rest;
        events := events + NonEmpty(contents);
        i := i + 1;
    }
    assert events + [] == events;
    x := Execution(events, Open);
  }

  lemma ThenStops(x: Execution, y: Execution, z: Execution)
    ensures x.end == Open ==> Then(x, y) == Execution(x.events + y.events, y.end)
    ensures y.end != Open ==> Then(y, z) == y
  {
  }

  method Execute(decode: Decoder, read: Reader, chunks: seq<seq<byte>>, fault: Option<Error>) returns (x: Execution)
    ensures x == ExecutedChunks(decode, read, [], 0, chunks, fault)
  {
    hide Appended, Consumed, Finished, Then;
    var parser := new ServerSentEventParser();
    var received, i := 0, 0;
    x := Execution([], Open);
    ghost var whole := ExecutedChunks(decode, read, [], 0, chunks, fault);
    ThenNothing(whole, Open);
    while i < |chunks|
      invariant 0 <= i <= |chunks| && received >= 0 && x.end == Open
      invariant Then(x, ExecutedChunks(decode, read, parser.buffer, received, chunks[i..], fault)) == whole
    {
      assert chunks[i..][1..] == chunks[i + 1..];
      received := received + |chunks[i]|;
      if received > MAXIMUM_RESPONSE_BYTES {
        ThenNothing(x, Refused(ResponseTooLarge));
        return x.(end := Refused(ResponseTooLarge));
      }
      var payloads := parser.Append(decode, chunks[i]);
      if payloads.Failure? {
        ThenNothing(x, Refused(payloads.error));
        return x.(end := Refused(payloads.error));
      }
      var step := Consume(read, payloads.value);
      ghost var rest := ExecutedChunks(decode, read, parser.buffer, received, chunks[i + 1..], fault);
      ThenThen(x, step, rest);
      ThenStops(x, step, rest);
      x := Execution(x.events + step.events, step.end);
      if x.end != Open { return; }
      i := i + 1;
    }
    if fault.Some? {
      ThenNothing(x, Refused(fault.value));
      return x.(end := Refused(fault.value));
    }
    var last := parser.Finish(decode);
    if last.Failure? {
      ThenNothing(x, Refused(last.error));
      return x.(end := Refused(last.error));
    }
    var step := Consume(read, last.value);
    ThenStops(x, Closed(step, None), step);
    x := Closed(Execution(x.events + step.events, step.end), None);
  }
}
