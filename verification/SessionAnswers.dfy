/** What a request or a read gives, in terms of how the coming lines parse. */
module SessionAnswers {
  import opened Prelude
  import opened JsonLines
  import opened AppServerSession

  /** The line parses as a notification: a name and no id. */
  ghost predicate NoticeLine<V>(c: Codec<V>, line: seq<byte>, n: Notification<V>) {
    var json := c.parse(line);
    && json.Some? && json.value.Object? && json.value.id.None? && json.value.name == Some(n.name)
    && n.params == (if json.value.params.Some? then json.value.params.value else c.emptyObject)
  }

  ghost predicate AllWritten(writes: seq<Write>) {
    forall i :: 0 <= i < |writes| ==> writes[i] == Written
  }

  /** A request can go out, and these lines come in: notifications that fit in
      the queue, then at least one line more. */
  ghost predicate Expecting<V>(c: Codec<V>, s: State<V>, call: Outgoing<V>, lines: seq<seq<byte>>,
                               notices: seq<Notification<V>>)
  {
    && s.initialized && s.pending < MAX_PENDING_REQUESTS && s.nextId < U64_MAX && AllWritten(s.writes)
    && |c.encode(call)| <= MAX_JSONL_LINE_BYTES
    && Brings(s, lines) && |notices| < |lines| && |s.queue| + |notices| <= MAX_NOTIFICATION_QUEUE
    && forall i :: 0 <= i < |notices| ==> NoticeLine(c, lines[i], notices[i])
  }

  /** Reading through the notifications: the wait goes on from here. */
  lemma {:induction false} WaitsThrough<V>(c: Codec<V>, s: State<V>, expected: nat, lines: seq<seq<byte>>,
                                           notices: seq<Notification<V>>) returns (t: State<V>)
    requires Brings(s, lines) && |notices| < |lines| && |s.queue| + |notices| <= MAX_NOTIFICATION_QUEUE
    requires forall i :: 0 <= i < |notices| ==> NoticeLine(c, lines[i], notices[i])
    ensures WaitForResponse(c, s, expected) == WaitForResponse(c, t, expected)
    ensures t == s.(buffer := t.buffer, inbound := t.inbound, queue := s.queue + notices, log := t.log)
    ensures Brings(t, lines[|notices|..])
    decreases |notices|
  {
    hide ReadMessage, Brings;
    if notices == [] {
      t := s;
      assert s.queue + notices == s.queue;
      assert lines[0..] == lines;
    } else {
      assert NoticeLine(c, lines[0], notices[0]);
      ReadsNext(c, s, lines);
      ReadShape(c, s);
      var u := ReadMessage(c, s).1;
      assert ReadMessage(c, s).0 == Success(Notice(notices[0]));
      var w := u.(queue := u.queue + [notices[0]]);
      BringsQueue(u, w, lines[1..]);
      assert forall i | 0 <= i < |notices| - 1 :: NoticeLine(c, lines[1..][i], notices[1..][i]);
      t := WaitsThrough(c, w, expected, lines[1..], notices[1..]);
      assert w.queue + notices[1..] == s.queue + notices;
      assert lines[1..][|notices| - 1..] == lines[|notices|..];
    }
  }

  /** The state in which the wait meets the line after the notifications. */
  ghost predicate Reached<V>(c: Codec<V>, s: State<V>, call: Outgoing<V>, notices: seq<Notification<V>>, t: State<V>) {
    t == s.(buffer := t.buffer, inbound := t.inbound, log := t.log, writes := t.writes,
            nextId := s.nextId + 1, pending := s.pending + 1, queue := s.queue + notices,
            sent := s.sent + [call], out := s.out + Framed(c.encode(call)))
  }

  lemma RequestReaches<V>(c: Codec<V>, s: State<V>, name: string, params: V, lines: seq<seq<byte>>,
                          notices: seq<Notification<V>>) returns (t: State<V>)
    requires Expecting(c, s, Call(name, s.nextId, params), lines, notices)
    ensures Reached(c, s, Call(name, s.nextId, params), notices, t) && AllWritten(t.writes)
    ensures Brings(t, lines[|notices|..])
    ensures var w := WaitForResponse(c, t, s.nextId);
      RequestInner(c, s, name, params, false) == (w.0, w.1.(pending := SaturatingDecrement(w.1.pending)))
  {
    hide WaitForResponse, Brings, NoticeLine;
    var call := Call(name, s.nextId, params);
    var u := s.(nextId := s.nextId + 1, pending := s.pending + 1);
    var frame := Framed(c.encode(call));
    assert frame[..|frame|] == frame;
    var (sent, v) := SendValue(c, u, call);
    assert sent.Success? && v.sent == s.sent + [call] && v.out == s.out + frame;
    BringsQueue(s, v, lines);
    t := WaitsThrough(c, v, s.nextId, lines, notices);
  }

  /** A line that parses as a response with this request's id, a result and no
      error: the request succeeds with that result. What came before it is queued
      under its own names, the request is no longer pending, and only its own call
      went out. */
  lemma ResultComesBack<V>(c: Codec<V>, s: State<V>, name: string, params: V, lines: seq<seq<byte>>,
                           notices: seq<Notification<V>>, json: Json<V>)
    requires Expecting(c, s, Call(name, s.nextId, params), lines, notices)
    requires c.parse(lines[|notices|]) == Some(json) && json.Object? && json.id.Some? && json.name.None?
    requires json.number == Some(s.nextId) && json.result.Some? && json.error.None?
    ensures var (r, t) := RequestInner(c, s, name, params, false);
      && r == Success(json.result.value)
      && t.queue == s.queue + notices && t.pending == s.pending && t.nextId == s.nextId + 1
      && t.sent == s.sent + [Call(name, s.nextId, params)]
      && t.out == s.out + Framed(c.encode(Call(name, s.nextId, params)))
  {
    hide ReadMessage, Brings, NoticeLine;
    var t := RequestReaches(c, s, name, params, lines, notices);
    ReadsNext(c, t, lines[|notices|..]);
    ReadShape(c, t);
  }

  /** A response with this id, an error and no result: the request fails, asking
      for authentication if and only if the error says so. */
  lemma ErrorComesBack<V>(c: Codec<V>, s: State<V>, name: string, params: V, lines: seq<seq<byte>>,
                          notices: seq<Notification<V>>, json: Json<V>)
    requires Expecting(c, s, Call(name, s.nextId, params), lines, notices)
    requires c.parse(lines[|notices|]) == Some(json) && json.Object? && json.id.Some? && json.name.None?
    requires json.number == Some(s.nextId) && json.result.None? && json.error.Some?
    ensures var (r, t) := RequestInner(c, s, name, params, false);
      && r.Failure? && r.error in {AuthenticationRequired, RequestRejected}
      && (r.error == AuthenticationRequired <==> c.unauthorized(json.error.value))
      && t.queue == s.queue + notices && t.pending == s.pending && t.nextId == s.nextId + 1
      && t.sent == s.sent + [Call(name, s.nextId, params)]
  {
    hide ReadMessage, Brings, NoticeLine;
    var t := RequestReaches(c, s, name, params, lines, notices);
    ReadsNext(c, t, lines[|notices|..]);
    ReadShape(c, t);
  }

  lemma ServerRequestUnderstood<V>(c: Codec<V>, line: seq<byte>, json: Json<V>)
    requires c.parse(line) == Some(json) && json.Object? && json.id.Some? && json.name.Some?
    ensures Understood(c, line) == Success(ServerRequest(json.id.value))
  {
  }

  lemma DeniedInFull<V>(c: Codec<V>, s: State<V>, requestId: V)
    requires AllWritten(s.writes) && |c.encode(Denial(requestId))| <= MAX_JSONL_LINE_BYTES
    ensures var (e, t) := Deny(c, s, requestId);
      && e == ForbiddenAction && t.sent == s.sent + [Denial(requestId)]
      && t == s.(writes := t.writes, out := t.out, sent := t.sent, torn := t.torn)
  {
    var frame := Framed(c.encode(Denial(requestId)));
    assert frame[..|frame|] == frame;
  }

  /** A line with an id and a name is a request of the server: it is denied under
      its own id, and the request is given up as forbidden. */
  lemma ServerRequestDenied<V>(c: Codec<V>, s: State<V>, name: string, params: V, lines: seq<seq<byte>>,
                               notices: seq<Notification<V>>, json: Json<V>)
    requires Expecting(c, s, Call(name, s.nextId, params), lines, notices)
    requires c.parse(lines[|notices|]) == Some(json) && json.Object? && json.id.Some? && json.name.Some?
    requires |c.encode(Denial(json.id.value))| <= MAX_JSONL_LINE_BYTES
    ensures var (r, t) := RequestInner(c, s, name, params, false);
      && r == Failure(ForbiddenAction)
      && t.queue == s.queue + notices && t.pending == s.pending && t.nextId == s.nextId + 1
      && t.sent == s.sent + [Call(name, s.nextId, params), Denial(json.id.value)]
  {
    hide ReadMessage, Brings, NoticeLine, RequestInner, Deny, Classify;
    var t := RequestReaches(c, s, name, params, lines, notices);
    ReadsNext(c, t, lines[|notices|..]);
    ReadShape(c, t);
    ServerRequestUnderstood(c, lines[|notices|], json);
    var u := ReadMessage(c, t).1;
    DeniedInFull(c, u, json.id.value);
    assert (s.sent + [Call(name, s.nextId, params)]) + [Denial(json.id.value)]
        == s.sent + [Call(name, s.nextId, params), Denial(json.id.value)];
  }

  /** Any other line ends the request as what it is: an answer to another request
      or one whose id is no number as a correlation failure, and everything that
      is no message, or a response with both or neither of result and error, as
      malformed. */
  lemma StrangeLineComesBack<V>(c: Codec<V>, s: State<V>, name: string, params: V, lines: seq<seq<byte>>,
                                notices: seq<Notification<V>>)
    requires Expecting(c, s, Call(name, s.nextId, params), lines, notices)
    requires var json := c.parse(lines[|notices|]);
      json.Some? && json.value.Object? ==>
        && json.value.name.None?
        && (json.value.number == Some(s.nextId) ==> json.value.result.Some? == json.value.error.Some?)
    ensures var (r, t) := RequestInner(c, s, name, params, false);
      var json := c.parse(lines[|notices|]);
      && r == Failure(if json.Some? && json.value.Object? && json.value.id.Some? && json.value.number != Some(s.nextId)
                      then CorrelationFailed else MalformedProtocol)
      && t.queue == s.queue + notices && t.pending == s.pending && t.nextId == s.nextId + 1
  {
    hide ReadMessage, Brings, NoticeLine;
    var t := RequestReaches(c, s, name, params, lines, notices);
    ReadsNext(c, t, lines[|notices|..]);
    ReadShape(c, t);
  }

  /** Reading one notification with an empty queue: a name without an id is
      handed out with its parameters, a server request is denied, a response is
      a correlation failure, anything else malformed. */
  lemma NextMeets<V>(c: Codec<V>, s: State<V>, lines: seq<seq<byte>>)
    requires s.queue == [] && Brings(s, lines) && lines != [] && AllWritten(s.writes)
    ensures var (r, t) := NextNotification(c, s);
      var json := c.parse(lines[0]);
      && (json.None? || !json.value.Object? ==> r == Failure(MalformedProtocol))
      && (json.Some? && json.value.Object? ==>
            var j := json.value;
            && (j.id.None? && j.name.Some? ==>
                  r == Success(Notification(j.name.value, if j.params.Some? then j.params.value else c.emptyObject)))
            && (j.id.Some? && j.name.None? ==> r == Failure(CorrelationFailed))
            && (j.id.None? && j.name.None? ==> r == Failure(MalformedProtocol))
            && (j.id.Some? && j.name.Some? && |c.encode(Denial(j.id.value))| <= MAX_JSONL_LINE_BYTES ==>
                  r == Failure(ForbiddenAction) && t.sent == s.sent + [Denial(j.id.value)])
            && (j.id.None? || j.name.None? ==> t.sent == s.sent))
      && Brings(t, lines[1..]) && t.queue == []
  {
    hide ReadMessage, Brings, Deny;
    ReadsNext(c, s, lines);
    ReadShape(c, s);
    var json, u := c.parse(lines[0]), ReadMessage(c, s).1;
    if json.Some? && json.value.Object? && json.value.id.Some? && json.value.name.Some? {
      DenyShape(c, u, json.value.id.value);
      BringsQueue(u, Deny(c, u, json.value.id.value).1, lines[1..]);
      if |c.encode(Denial(json.value.id.value))| <= MAX_JSONL_LINE_BYTES {
        DeniedInFull(c, u, json.value.id.value);
      }
    }
  }

  /** Before the handshake, with sixteen requests pending or with the ids used
      up, a request is refused and changes nothing. */
  lemma RefusedAtOnce<V>(c: Codec<V>, s: State<V>, name: string, params: V)
    requires s.pending >= MAX_PENDING_REQUESTS || !s.initialized || s.nextId >= U64_MAX
    ensures RequestInner(c, s, name, params, false) == (Failure(MalformedProtocol), s)
  {
  }

  /** How a write ends: an oversized value puts out nothing, and a write that
      fails says why. */
  lemma SendEnds<V>(c: Codec<V>, s: State<V>, o: Outgoing<V>)
    ensures var (r, t) := SendValue(c, s, o);
      var w := if s.writes == [] then Written else s.writes[0];
      && (|c.encode(o)| > MAX_JSONL_LINE_BYTES ==> r == Failure(RequestTooLarge) && t == s)
      && (|c.encode(o)| <= MAX_JSONL_LINE_BYTES ==>
            && (r.Success? <==> w.Written?)
            && (w.WriteExpired? ==> r == Failure(TimedOut)) && (w.WriteFault? ==> r == Failure(TransportFailed)))
  {
  }

  /** A call that is too long, or whose write fails, ends the request with that
      error before anything is read; it costs an id and nothing stays pending. */
  lemma RefusedSending<V>(c: Codec<V>, s: State<V>, name: string, params: V)
    requires s.pending < MAX_PENDING_REQUESTS && s.initialized && s.nextId < U64_MAX
    requires |c.encode(Call(name, s.nextId, params))| > MAX_JSONL_LINE_BYTES || (s.writes != [] && s.writes[0] != Written)
    ensures var (r, t) := RequestInner(c, s, name, params, false);
      && r == Failure(if |c.encode(Call(name, s.nextId, params))| > MAX_JSONL_LINE_BYTES then RequestTooLarge
                      else if s.writes[0].WriteExpired? then TimedOut else TransportFailed)
      && t == s.(nextId := s.nextId + 1, writes := t.writes, out := t.out, sent := t.sent, torn := t.torn)
  {
    hide WaitForResponse, SendValue;
    var u := s.(nextId := s.nextId + 1, pending := s.pending + 1);
    SendEnds(c, u, Call(name, s.nextId, params));
    SendShape(c, u, Call(name, s.nextId, params));
  }
}
