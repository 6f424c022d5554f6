/** The broker cuts a reply into bounded, numbered chunks; the client accepts
    only a well-formed numbered stream within its own limits. */
module TextChunks {
  import opened Prelude

  const MAX_CHUNK_BYTES: nat := 65_536
  const MAX_RESPONSE_BYTES: nat := 524_288
  const MAX_QUEUED_CHUNKS: nat := 32
  const PROTOCOL_VERSION: nat := 1

  // ------------------------------------------------------------------ bytes

  /** The bytes one Unicode scalar takes in UTF-8 (section 3 of RFC 3629). */
  function ScalarBytes(c: char): (n: nat)
    ensures 1 <= n <= 4
  {
    if c <= '\U{7F}' then 1 else if c <= '\U{7FF}' then 2 else if c <= '\U{FFFF}' then 3 else 4
  }

  function Bytes(s: string): nat {
    if s == [] then 0 else Bytes(s[..|s| - 1]) + ScalarBytes(s[|s| - 1])
  }

  lemma {:induction false} BytesAppend(a: string, b: string)
    ensures Bytes(a + b) == Bytes(a) + Bytes(b)
  {
    if b == [] {
      assert a + b == a;
    } else {
      assert (a + b)[..|a + b| - 1] == a + b[..|b| - 1];
      BytesAppend(a, b[..|b| - 1]);
    }
  }

  function TotalBytes(chunks: seq<string>): nat {
    if chunks == [] then 0 else Bytes(chunks[0]) + TotalBytes(chunks[1..])
  }

  lemma {:induction false} TotalIsBytes(chunks: seq<string>)
    ensures TotalBytes(chunks) == Bytes(Concat(chunks))
  {
    if chunks != [] {
      TotalIsBytes(chunks[1..]);
      BytesAppend(chunks[0], Concat(chunks[1..]));
    }
  }

  // -------------------------------------------------------------- the broker

  /** No chunk is empty or too long, and none but the last could have taken one
      more scalar of any size. */
  ghost predicate Bounded(chunks: seq<string>) {
    && (forall i :: 0 <= i < |chunks| ==> 0 < Bytes(chunks[i]) <= MAX_CHUNK_BYTES)
    && (forall i :: 0 <= i < |chunks| - 1 ==> Bytes(chunks[i]) > MAX_CHUNK_BYTES - 4)
  }

  /** Every full chunk is nearly full. */
  ghost predicate AllFull(chunks: seq<string>) {
    forall i :: 0 <= i < |chunks| ==> MAX_CHUNK_BYTES - 4 < Bytes(chunks[i]) <= MAX_CHUNK_BYTES
  }

  /** The scalar that starts `next` did not fit behind `chunk`. */
  predicate NoRoom(chunk: string, next: string) {
    next != [] && Bytes(chunk) + ScalarBytes(next[0]) > MAX_CHUNK_BYTES
  }

  /** No chunk was closed while the next scalar still fitted. */
  ghost predicate Greedy(chunks: seq<string>) {
    forall i :: 0 < i < |chunks| ==> NoRoom(chunks[i - 1], chunks[i])
  }

  /** The first i scalars are cut into full chunks and an unfinished one. */
  ghost predicate Cutting(content: string, i: nat, chunks: seq<string>, current: string) {
    && i <= |content| && Concat(chunks) + current == content[..i]
    && AllFull(chunks) && Bytes(current) <= MAX_CHUNK_BYTES && (current == [] ==> chunks == [] && i == 0)
    && Greedy(chunks) && (chunks != [] ==> NoRoom(chunks[|chunks| - 1], current))
  }

  lemma CuttingStarts(content: string)
    ensures Cutting(content, 0, [], [])
  {
    assert Concat<char>([]) + [] == content[..0];
  }

  lemma NoBytes()
    ensures Bytes([]) == 0
  {
  }

  lemma ConcatOne(s: string)
    ensures Concat([s]) == s
  {
    assert Concat([s][1..]) == [];
  }

  lemma Flushed(chunks: seq<string>, current: string)
    ensures Concat(chunks + [current]) == Concat(chunks) + current
  {
    ConcatAppend(chunks, [current]);
    ConcatOne(current);
  }

  lemma BytesOne(c: char)
    ensures Bytes([c]) == ScalarBytes(c)
  {
    assert [c][..0] == [];
  }

  lemma CuttingFlushes(content: string, i: nat, chunks: seq<string>, current: string)
    requires i < |content| && Cutting(content, i, chunks, current)
    requires Bytes(current) + Bytes([content[i]]) > MAX_CHUNK_BYTES
    ensures Cutting(content, i + 1, chunks + [current], [content[i]])
  {
    hide Bytes, Concat;
    BytesOne(content[i]);
    assert content[..i + 1] == content[..i] + [content[i]];
    NoBytes();
    Flushed(chunks, current);
    var all := chunks + [current];
    assert all[|all| - 1] == current;
    assert AllFull(all);
    assert Greedy(all);
  }

  lemma CuttingGrows(content: string, i: nat, chunks: seq<string>, current: string)
    requires i < |content| && Cutting(content, i, chunks, current)
    requires Bytes(current) + Bytes([content[i]]) <= MAX_CHUNK_BYTES
    ensures Cutting(content, i + 1, chunks, current + [content[i]])
  {
    hide Bytes, Concat, AllFull, Greedy;
    BytesAppend(current, [content[i]]);
    assert content[..i + 1] == content[..i] + [content[i]];
    assert Concat(chunks) + (current + [content[i]]) == (Concat(chunks) + current) + [content[i]];
    assert current != [] ==> (current + [content[i]])[0] == current[0];
  }

  lemma CuttingGoesOn(content: string, i: nat, chunks: seq<string>, current: string)
    requires i < |content| && Cutting(content, i, chunks, current)
    ensures var fragment := [content[i]];
      if Bytes(current) + Bytes(fragment) > MAX_CHUNK_BYTES
      then Cutting(content, i + 1, chunks + [current], fragment)
      else Cutting(content, i + 1, chunks, current + fragment)
  {
    if Bytes(current) + Bytes([content[i]]) > MAX_CHUNK_BYTES {
      CuttingFlushes(content, i, chunks, current);
    } else {
      CuttingGrows(content, i, chunks, current);
    }
  }

  lemma NonEmptyBytes(s: string)
    requires s != []
    ensures Bytes(s) > 0
  {
  }

  lemma CuttingEnds(content: string, chunks: seq<string>, current: string)
    requires Cutting(content, |content|, chunks, current)
    ensures var all := if current == [] then chunks else chunks + [current];
      Concat(all) == content && Bounded(all) && Greedy(all)
  {
    hide Bytes, Concat;
    assert content[..|content|] == content;
    if current == [] {
      assert Concat(chunks) + [] == Concat(chunks);
    } else {
      Flushed(chunks, current);
      NonEmptyBytes(current);
    }
  }

  /** Cuts the text between scalars, each chunk as long as it can be. */
  method BoundedChunks(content: string) returns (chunks: seq<string>)
    ensures Concat(chunks) == content && Bounded(chunks)
    ensures Greedy(chunks)
  {
    hide Cutting, Bytes, Concat, Bounded, Greedy;
    chunks := [];
    var current: string := [];
    var i := 0;
    CuttingStarts(content);
    while i < |content|
      invariant 0 <= i <= |content| && Cutting(content, i, chunks, current)
    {
      var fragment := [content[i]];
      CuttingGoesOn(content, i, chunks, current);
      if Bytes(current) + Bytes(fragment) > MAX_CHUNK_BYTES {
        chunks := chunks + [current];
        current := [];
        assert [] + fragment == fragment;
      }
      current := current + fragment;
      i := i + 1;
    }
    CuttingEnds(content, chunks, current);
    if current != [] { chunks := chunks + [current]; }
  }

  // -------------------------------------------------------------- the stream

  datatype Event = Event(version: nat, requestId: string, sequence: nat, terminal: bool, content: Option<string>)

  datatype Error = UnsupportedVersion | MalformedResponse | InvalidStream | ResponseTooLarge | CallbackRefused

  function ChunkEvent(requestId: string, sequence: nat, chunk: string): Event {
    Event(PROTOCOL_VERSION, requestId, sequence, false, Some(chunk))
  }

  function TerminalEvent(requestId: string, sequence: nat): Event {
    Event(PROTOCOL_VERSION, requestId, sequence, true, None)
  }

  /** Chunks numbered from `sequence`, then the terminal with the next number. */
  function Numbered(requestId: string, sequence: nat, chunks: seq<string>): seq<Event>
    decreases |chunks|
  {
    if chunks == [] then [TerminalEvent(requestId, sequence)]
    else [ChunkEvent(requestId, sequence, chunks[0])] + Numbered(requestId, sequence + 1, chunks[1..])
  }

  // -------------------------------------------------------------- the client

  datatype Progress = Progress(expected: nat, accumulated: nat, count: nat, terminalSeen: bool)

  /** One event: the refusal, or the progress after it. */
  function Accept(requestId: string, p: Progress, e: Event): Result<Progress, Error> {
    if e.version != PROTOCOL_VERSION then Failure(UnsupportedVersion)
    else if e.requestId != requestId then Failure(MalformedResponse)
    else if p.terminalSeen || e.sequence != p.expected then Failure(InvalidStream)
    else if p.count + 1 > MAX_QUEUED_CHUNKS then Failure(InvalidStream)
    else if !e.terminal then
      if e.content.None? then Failure(InvalidStream)
      else if Bytes(e.content.value) > MAX_CHUNK_BYTES then Failure(ResponseTooLarge)
      else if p.accumulated + Bytes(e.content.value) > MAX_RESPONSE_BYTES then Failure(ResponseTooLarge)
      else Success(Progress(p.expected + 1, p.accumulated + Bytes(e.content.value), p.count + 1, false))
    else if e.content.Some? then Failure(InvalidStream)
    else Success(Progress(p.expected + 1, p.accumulated, p.count + 1, true))
  }

  function AcceptAll(requestId: string, p: Progress, events: seq<Event>): Result<Progress, Error>
    decreases |events|
  {
    if events == [] then Success(p)
    else match Accept(requestId, p, events[0])
      case Failure(e) => Failure(e)
      case Success(q) => AcceptAll(requestId, q, events[1..])
  }

  const START := Progress(0, 0, 0, false)

  /** The verdict on a finished stream. */
  function Verdict(requestId: string, events: seq<Event>): Result<Progress, Error> {
    var r := AcceptAll(requestId, START, events);
    if r.Success? && !r.value.terminalSeen then Failure(InvalidStream) else r
  }

  lemma AcceptOne(requestId: string, p: Progress, e: Event)
    ensures AcceptAll(requestId, p, [e]) == Accept(requestId, p, e)
  {
    assert [e][1..] == [];
  }

  lemma {:induction false} AcceptAppend(requestId: string, p: Progress, a: seq<Event>, b: seq<Event>)
    ensures AcceptAll(requestId, p, a + b) ==
      if AcceptAll(requestId, p, a).Failure? then AcceptAll(requestId, p, a)
      else AcceptAll(requestId, AcceptAll(requestId, p, a).value, b)
    decreases |a|
  {
    if a == [] {
      assert a + b == b;
    } else {
      assert (a + b)[1..] == a[1..] + b;
      match Accept(requestId, p, a[0])
      case Failure(_) =>
      case Success(q) => AcceptAppend(requestId, q, a[1..], b);
    }
  }

  lemma AcceptErrors(requestId: string, p: Progress, e: Event)
    ensures Accept(requestId, p, e) != Failure(CallbackRefused)
  {
  }

  /** The client's loop: what it delivers before the first refusal, and the
      verdict. `refusal` is the number of the first event that the callback, to
      which each accepted event is delivered, refuses. */
  method ReceiveStream(requestId: string, events: seq<Event>, refusal: Option<nat>)
    returns (delivered: seq<Event>, r: Result<(), Error>)
    ensures delivered <= events && AcceptAll(requestId, START, delivered).Success?
    ensures r == Failure(CallbackRefused) <==> refusal.Some? && |delivered| == refusal.value + 1
    ensures refusal.Some? ==> |delivered| <= refusal.value + 1
    ensures r.Success? ==> delivered == events && Verdict(requestId, events).Success?
    ensures r.Failure? && r.error != CallbackRefused ==> Verdict(requestId, events) == Failure(r.error)
    ensures |delivered| < |events| && r != Failure(CallbackRefused) ==>
      AcceptAll(requestId, START, events[..|delivered| + 1]).Failure?
  {
    var expected, accumulated, count, terminalSeen := 0, 0, 0, false;
    delivered := [];
    while |delivered| < |events|
      invariant |delivered| <= |events| && delivered == events[..|delivered|]
      invariant refusal.Some? ==> |delivered| <= refusal.value
      invariant expected >= 0 && accumulated >= 0 && count >= 0
      invariant AcceptAll(requestId, START, delivered)
             == Success(Progress(expected, accumulated, count, terminalSeen))
      invariant AcceptAll(requestId, START, events)
             == AcceptAll(requestId, Progress(expected, accumulated, count, terminalSeen), events[|delivered|..])
    {
      ghost var p := Progress(expected, accumulated, count, terminalSeen);
      var e := events[|delivered|];
      assert events[|delivered|..][1..] == events[|delivered| + 1..];
      assert events[..|delivered| + 1] == delivered + [e];
      AcceptAppend(requestId, START, delivered, [e]);
      AcceptOne(requestId, p, e);
      var step := Accept(requestId, Progress(expected, accumulated, count, terminalSeen), e);
      if step.Failure? {
        AcceptErrors(requestId, p, e);
        return delivered, Failure(step.error);
      }
      expected, accumulated, count, terminalSeen :=
        step.value.expected, step.value.accumulated, step.value.count, step.value.terminalSeen;
      delivered := delivered + [e];
      if refusal == Some(|delivered| - 1) { return delivered, Failure(CallbackRefused); }
    }
    r := if terminalSeen then Success(()) else Failure(InvalidStream);
  }

  // ------------------------------------------------------------------ proofs

  /** The limits a run of chunks keeps from a given progress. */
  ghost predicate Within(p: Progress, chunks: seq<string>) {
    && (forall i :: 0 <= i < |chunks| ==> Bytes(chunks[i]) <= MAX_CHUNK_BYTES)
    && p.accumulated + TotalBytes(chunks) <= MAX_RESPONSE_BYTES
    && p.count + |chunks| + 1 <= MAX_QUEUED_CHUNKS
  }

  lemma AfterTerminal(requestId: string, p: Progress, events: seq<Event>)
    requires p.terminalSeen && AcceptAll(requestId, p, events).Success?
    ensures events == []
  {
  }

  lemma {:induction false} AcceptedForm(requestId: string, p: Progress, events: seq<Event>)
    returns (chunks: seq<string>)
    requires !p.terminalSeen && p.accumulated <= MAX_RESPONSE_BYTES
    requires AcceptAll(requestId, p, events).Success? && AcceptAll(requestId, p, events).value.terminalSeen
    ensures events == Numbered(requestId, p.expected, chunks) && Within(p, chunks)
    decreases |events|
  {
    var e := events[0];
    var q := Accept(requestId, p, e).value;
    if e.terminal {
      AfterTerminal(requestId, q, events[1..]);
      assert events == [e];
      chunks := [];
    } else {
      var others := AcceptedForm(requestId, q, events[1..]);
      chunks := [e.content.value] + others;
      assert chunks[1..] == others;
      assert events == [e] + events[1..];
      forall i | 0 <= i < |chunks|
        ensures Bytes(chunks[i]) <= MAX_CHUNK_BYTES
      {
        if i > 0 { assert chunks[i] == others[i - 1]; }
      }
    }
  }

  lemma {:induction false} NumberedAccepted(requestId: string, p: Progress, chunks: seq<string>)
    requires !p.terminalSeen && Within(p, chunks)
    ensures AcceptAll(requestId, p, Numbered(requestId, p.expected, chunks))
         == Success(Progress(p.expected + |chunks| + 1, p.accumulated + TotalBytes(chunks), p.count + |chunks| + 1, true))
    decreases |chunks|
  {
    var events := Numbered(requestId, p.expected, chunks);
    if chunks == [] {
      AcceptOne(requestId, p, TerminalEvent(requestId, p.expected));
    } else {
      assert events[0] == ChunkEvent(requestId, p.expected, chunks[0]);
      assert events[1..] == Numbered(requestId, p.expected + 1, chunks[1..]);
      var q := Progress(p.expected + 1, p.accumulated + Bytes(chunks[0]), p.count + 1, false);
      assert Accept(requestId, p, events[0]) == Success(q);
      NumberedAccepted(requestId, q, chunks[1..]);
    }
  }

  /** The client accepts a stream if and only if it is some run of chunks,
      numbered from zero and closed by one terminal, within all three limits. */
  lemma AcceptedExactly(requestId: string, events: seq<Event>)
    ensures Verdict(requestId, events).Success? <==>
      exists chunks :: events == Numbered(requestId, 0, chunks) && Within(START, chunks)
  {
    if Verdict(requestId, events).Success? {
      var chunks := AcceptedForm(requestId, START, events);
    }
    forall chunks | events == Numbered(requestId, 0, chunks) && Within(START, chunks)
      ensures Verdict(requestId, events).Success?
    {
      NumberedAccepted(requestId, START, chunks);
    }
  }

  /** Full chunks carry at least 65,533 bytes each. */
  lemma {:induction false} FullChunksWeigh(chunks: seq<string>)
    requires forall i :: 0 <= i < |chunks| ==> Bytes(chunks[i]) > MAX_CHUNK_BYTES - 4
    ensures TotalBytes(chunks) >= |chunks| * (MAX_CHUNK_BYTES - 3)
  {
    if chunks != [] { FullChunksWeigh(chunks[1..]); }
  }

  lemma {:induction false} TotalAppend(a: seq<string>, b: seq<string>)
    ensures TotalBytes(a + b) == TotalBytes(a) + TotalBytes(b)
  {
    if a == [] {
      assert a + b == b;
    } else {
      assert (a + b)[1..] == a[1..] + b;
      TotalAppend(a[1..], b);
    }
  }

  /** A reply within the response limit makes at most nine chunks. */
  lemma NineChunks(chunks: seq<string>)
    requires Bounded(chunks) && TotalBytes(chunks) <= MAX_RESPONSE_BYTES
    ensures |chunks| <= 9
  {
    if chunks != [] {
      var n := |chunks| - 1;
      assert chunks == chunks[..n] + chunks[n..];
      TotalAppend(chunks[..n], chunks[n..]);
      FullChunksWeigh(chunks[..n]);
    }
  }

  /** The text the client reassembles. */
  function Reassembled(events: seq<Event>): string {
    if events == [] then []
    else (if events[0].content.Some? then events[0].content.value else []) + Reassembled(events[1..])
  }

  lemma {:induction false} ReassembledNumbered(requestId: string, sequence: nat, chunks: seq<string>)
    ensures Reassembled(Numbered(requestId, sequence, chunks)) == Concat(chunks)
    ensures |Numbered(requestId, sequence, chunks)| == |chunks| + 1
    decreases |chunks|
  {
    var events := Numbered(requestId, sequence, chunks);
    if chunks == [] {
      assert events[1..] == [];
    } else {
      assert events[1..] == Numbered(requestId, sequence + 1, chunks[1..]);
      ReassembledNumbered(requestId, sequence + 1, chunks[1..]);
    }
  }

  function ChunkEvents(requestId: string, sequence: nat, chunks: seq<string>): seq<Event>
    decreases |chunks|
  {
    if chunks == [] then [] else [ChunkEvent(requestId, sequence, chunks[0])] + ChunkEvents(requestId, sequence + 1, chunks[1..])
  }

  /** What a numbered run within the limits is heard as before its terminal. */
  lemma {:induction false} ChunksAccepted(requestId: string, p: Progress, chunks: seq<string>, rest: seq<Event>)
    requires !p.terminalSeen && Within(p, chunks)
    ensures AcceptAll(requestId, p, ChunkEvents(requestId, p.expected, chunks) + rest)
         == AcceptAll(requestId, Progress(p.expected + |chunks|, p.accumulated + TotalBytes(chunks), p.count + |chunks|, false), rest)
    decreases |chunks|
  {
    var events := ChunkEvents(requestId, p.expected, chunks);
    if chunks == [] {
      assert events + rest == rest;
    } else {
      var q := Progress(p.expected + 1, p.accumulated + Bytes(chunks[0]), p.count + 1, false);
      assert (events + rest)[0] == ChunkEvent(requestId, p.expected, chunks[0]);
      assert (events + rest)[1..] == ChunkEvents(requestId, p.expected + 1, chunks[1..]) + rest;
      assert Accept(requestId, p, (events + rest)[0]) == Success(q);
      ChunksAccepted(requestId, q, chunks[1..], rest);
    }
  }

  lemma WithinRoom(chunks: seq<string>)
    requires Within(START, chunks)
    ensures |chunks| + 1 <= MAX_QUEUED_CHUNKS
  {
  }

  /** After any chunks within the limits, with room for one event more, the next
      event is refused for what is wrong with it: another protocol version, another
      request, a number out of turn, a chunk without content or a terminal with
      some, and only a chunk too long, alone or in all, for its size. */
  lemma RefusedAs(requestId: string, chunks: seq<string>, e: Event, rest: seq<Event>)
    requires Within(START, chunks)
    ensures var r := Verdict(requestId, ChunkEvents(requestId, 0, chunks) + [e] + rest);
      && (e.version != PROTOCOL_VERSION ==> r == Failure(UnsupportedVersion))
      && (e.version == PROTOCOL_VERSION && e.requestId != requestId ==> r == Failure(MalformedResponse))
      && (e.version == PROTOCOL_VERSION && e.requestId == requestId ==>
            && (e.sequence != |chunks| || e.terminal == e.content.Some? ==> r == Failure(InvalidStream))
            && (e.sequence == |chunks| && !e.terminal && e.content.Some?
                && (Bytes(e.content.value) > MAX_CHUNK_BYTES
                    || TotalBytes(chunks) + Bytes(e.content.value) > MAX_RESPONSE_BYTES) ==>
                  r == Failure(ResponseTooLarge))
            && (e == TerminalEvent(requestId, |chunks|) && rest != []
                && rest[0].version == PROTOCOL_VERSION && rest[0].requestId == requestId ==>
                  r == Failure(InvalidStream)))
  {
    hide Bytes, Within;
    assert ChunkEvents(requestId, 0, chunks) + [e] + rest == ChunkEvents(requestId, 0, chunks) + ([e] + rest);
    ChunksAccepted(requestId, START, chunks, [e] + rest);
    assert Within(START, chunks) ==> |chunks| + 1 <= MAX_QUEUED_CHUNKS by { WithinRoom(chunks); }
    assert ([e] + rest)[1..] == rest;
  }

  /** A stream that ends without its terminal is refused. */
  lemma UnfinishedRefused(requestId: string, chunks: seq<string>)
    requires Within(START, chunks)
    ensures Verdict(requestId, ChunkEvents(requestId, 0, chunks)) == Failure(InvalidStream)
  {
    ChunksAccepted(requestId, START, chunks, []);
    assert ChunkEvents(requestId, 0, chunks) + [] == ChunkEvents(requestId, 0, chunks);
  }

  lemma {:induction false} NumberedInjective(requestId: string, sequence: nat, a: seq<string>, b: seq<string>)
    requires Numbered(requestId, sequence, a) == Numbered(requestId, sequence, b)
    ensures a == b
    decreases |a|
  {
    var x, y := Numbered(requestId, sequence, a), Numbered(requestId, sequence, b);
    assert x[0] == y[0];
    if a != [] && b != [] {
      assert x[1..] == Numbered(requestId, sequence + 1, a[1..]);
      assert y[1..] == Numbered(requestId, sequence + 1, b[1..]);
      NumberedInjective(requestId, sequence + 1, a[1..], b[1..]);
      assert a == [a[0]] + a[1..] && b == [b[0]] + b[1..];
    }
  }

  /** What the broker sends for a reply is accepted by the client if and only if
      the reply is within the response limit; then it takes at most nine chunks
      and the terminal, and reassembles to the reply. */
  lemma BrokerStreamsAccepted(requestId: string, content: string, chunks: seq<string>)
    requires Concat(chunks) == content && Bounded(chunks)
    ensures var events := Numbered(requestId, 0, chunks);
      && (Verdict(requestId, events).Success? <==> Bytes(content) <= MAX_RESPONSE_BYTES)
      && (Bytes(content) <= MAX_RESPONSE_BYTES ==> |events| <= 10)
      && Reassembled(events) == content
  {
    var events := Numbered(requestId, 0, chunks);
    TotalIsBytes(chunks);
    ReassembledNumbered(requestId, 0, chunks);
    if Bytes(content) <= MAX_RESPONSE_BYTES {
      NineChunks(chunks);
      NumberedAccepted(requestId, START, chunks);
    }
    if Verdict(requestId, events).Success? {
      var others := AcceptedForm(requestId, START, events);
      NumberedInjective(requestId, 0, chunks, others);
    }
  }

  /** What is sent carries the whole text in bounded chunks, and the client
      accepts it if and only if the text is within the response limit. */
  method SendStream(requestId: string, content: string) returns (events: seq<Event>)
    ensures exists chunks :: Concat(chunks) == content && Bounded(chunks) && events == Numbered(requestId, 0, chunks)
    ensures Reassembled(events) == content
    ensures Verdict(requestId, events).Success? <==> Bytes(content) <= MAX_RESPONSE_BYTES
  {
    hide Concat, Bounded, Verdict, Reassembled, Bytes;
    var cut := BoundedChunks(content);
    events := [];
    var sequence := 0;
    while sequence < |cut|
      invariant 0 <= sequence <= |cut|
      invariant events + Numbered(requestId, sequence, cut[sequence..]) == Numbered(requestId, 0, cut)
    {
      assert cut[sequence..][1..] == cut[sequence + 1..];
      var event := ChunkEvent(requestId, sequence, cut[sequence]);
      ghost var others := Numbered(requestId, sequence + 1, cut[sequence + 1..]);
      assert events + ([event] + others) == (events + [event]) + others;
      events := events + [event];
      sequence := sequence + 1;
    }
    events := events + [TerminalEvent(requestId, sequence)];
    assert events == Numbered(requestId, 0, cut);
    BrokerStreamsAccepted(requestId, content, cut);
  }
}
