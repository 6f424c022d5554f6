/** The request/response session over framed JSON lines: ids, deadlines, queued
    notifications and refused server requests.

    JSON is not interpreted: a `Codec` says how a line parses and how a value is
    written. `V` stands for a JSON value. */
module AppServerSession {
  import opened Prelude
  import opened JsonLines

  const MAX_PENDING_REQUESTS: nat := 16
  const MAX_NOTIFICATION_QUEUE: nat := 128
  const MAX_RESPONSE_BYTES: nat := 65_536
  const U64_MAX: nat := 0xFFFF_FFFF_FFFF_FFFF

  // ------------------------------------------------------------- the wire

  /** The fields of a parsed line that the session looks at. `number` is set
      when the id is an unsigned integer. */
  datatype Json<V> =
    | NotAnObject
    | Object(id: Option<V>, number: Option<nat>, name: Option<string>,
             result: Option<V>, error: Option<V>, params: Option<V>)

  datatype Notification<V> = Notification(name: string, params: V)

  datatype WireMessage<V> =
    | Response(id: nat, result: Option<V>, error: Option<V>)
    | Notice(notification: Notification<V>)
    | ServerRequest(requestId: V)

  datatype Outgoing<V> =
    | Call(name: string, id: nat, params: V)
    | Denial(requestId: V)

  datatype Codec<!V> = Codec(
    parse: seq<byte> -> Option<Json<V>>,
    encode: Outgoing<V> -> seq<byte>,
    emptyObject: V,
    unauthorized: V -> bool)

  function Classify<V>(c: Codec<V>, json: Json<V>): Result<WireMessage<V>, Error> {
    match json
    case NotAnObject => Failure(MalformedProtocol)
    case Object(id, number, name, result, error, params) =>
      if id.Some? && name.Some? then Success(ServerRequest(id.value))
      else if id.Some? then
        if number.None? then Failure(CorrelationFailed)
        else Success(Response(number.value, result, error))
      else if name.Some? then
        Success(Notice(Notification(name.value, if params.Some? then params.value else c.emptyObject)))
      else Failure(MalformedProtocol)
  }

  function RemoteError<V>(c: Codec<V>, error: V): Error {
    if c.unauthorized(error) then AuthenticationRequired else RequestRejected
  }

  /** What a write on the transport may do; one that fails may have put out some
      of its bytes. A finished schedule writes in full. */
  datatype Write = Written | WriteExpired(put: nat) | WriteFault(put: nat)

  /** How many of its bytes a write puts out. */
  function PutOut(w: Write, length: nat): (n: nat)
    ensures n <= length
  {
    if w.Written? || w.put > length then length else w.put
  }

  // ------------------------------------------------- the session as a value

  /** `out` is every byte put out, `sent` the values put out in full and `torn`
      the number of those cut off in the middle; `log` records every message
      decoded so far, in wire order. */
  datatype State<V> = State(
    buffer: seq<byte>, inbound: seq<Read>, writes: seq<Write>,
    out: seq<byte>, sent: seq<Outgoing<V>>, torn: nat,
    queue: seq<Notification<V>>, nextId: nat, pending: nat, initialized: bool,
    log: seq<WireMessage<V>>)

  function SendValue<V>(c: Codec<V>, s: State<V>, o: Outgoing<V>): (Result<(), Error>, State<V>) {
    if |c.encode(o)| > MAX_JSONL_LINE_BYTES then (Failure(RequestTooLarge), s)
    else
      var w := if s.writes == [] then Written else s.writes[0];
      var frame := Framed(c.encode(o));
      var put := PutOut(w, |frame|);
      var t := s.(writes := if s.writes == [] then [] else s.writes[1..], out := s.out + frame[..put],
                  sent := if put == |frame| then s.sent + [o] else s.sent,
                  torn := if 0 < put < |frame| then s.torn + 1 else s.torn);
      (match w
       case Written => Success(())
       case WriteExpired(_) => Failure(TimedOut)
       case WriteFault(_) => Failure(TransportFailed), t)
  }

  function Understood<V>(c: Codec<V>, line: seq<byte>): Result<WireMessage<V>, Error> {
    if |line| > MAX_RESPONSE_BYTES && |line| <= MAX_JSONL_LINE_BYTES then Failure(ResponseTooLarge)
    else match c.parse(line)
      case None => Failure(MalformedProtocol)
      case Some(json) => Classify(c, json)
  }

  function ReadMessage<V>(c: Codec<V>, s: State<V>): (Result<WireMessage<V>, Error>, State<V>) {
    var r := Receive(s.buffer, s.inbound);
    var t := s.(buffer := r.buffer, inbound := r.feed);
    match r.result
    case Failure(e) => (Failure(e), t)
    case Success(line) =>
      match Understood(c, line)
      case Failure(e) => (Failure(e), t)
      case Success(m) => (Success(m), t.(log := s.log + [m]))
  }

  /** A server request is denied on the wire, then reported as forbidden. */
  function Deny<V>(c: Codec<V>, s: State<V>, requestId: V): (Error, State<V>) {
    var (sent, t) := SendValue(c, s, Denial(requestId));
    (if sent.Success? then ForbiddenAction else sent.error, t)
  }

  function Verdict<V>(c: Codec<V>, result: Option<V>, error: Option<V>): Result<V, Error> {
    if result.Some? && error.None? then Success(result.value)
    else if result.None? && error.Some? then Failure(RemoteError(c, error.value))
    else Failure(MalformedProtocol)
  }

  function WaitForResponse<V>(c: Codec<V>, s: State<V>, expected: nat): (Result<V, Error>, State<V>)
    decreases |s.inbound|, |s.buffer|
  {
    var (message, t) := ReadMessage(c, s);
    match message
    case Failure(e) => (Failure(e), t)
    case Success(Response(id, result, error)) =>
      (if id != expected then Failure(CorrelationFailed) else Verdict(c, result, error), t)
    case Success(ServerRequest(requestId)) =>
      var (e, u) := Deny(c, t, requestId);
      (Failure(e), u)
    case Success(Notice(n)) =>
      if |t.queue| >= MAX_NOTIFICATION_QUEUE then (Failure(NotificationQueueFull), t)
      else WaitForResponse(c, t.(queue := t.queue + [n]), expected)
  }

  function SaturatingDecrement(n: nat): nat {
    if n > 0 then n - 1 else 0
  }

  function RequestInner<V>(c: Codec<V>, s: State<V>, name: string, params: V, initialize: bool)
    : (Result<V, Error>, State<V>)
  {
    if s.pending >= MAX_PENDING_REQUESTS || (!initialize && !s.initialized) || s.nextId >= U64_MAX then
      (Failure(MalformedProtocol), s)
    else
      var t := s.(nextId := s.nextId + 1, pending := s.pending + 1);
      var (sent, u) := SendValue(c, t, Call(name, s.nextId, params));
      var (r, w) := if sent.Failure? then (Failure(sent.error), u) else WaitForResponse(c, u, s.nextId);
      (r, w.(pending := SaturatingDecrement(w.pending)))
  }

  function NextNotification<V>(c: Codec<V>, s: State<V>): (Result<Notification<V>, Error>, State<V>) {
    if s.queue != [] then (Success(s.queue[0]), s.(queue := s.queue[1..]))
    else
      var (message, t) := ReadMessage(c, s);
      match message
      case Failure(e) => (Failure(e), t)
      case Success(Notice(n)) => (Success(n), t)
      case Success(Response(_, _, _)) => (Failure(CorrelationFailed), t)
      case Success(ServerRequest(requestId)) =>
        var (e, u) := Deny(c, t, requestId);
        (Failure(e), u)
  }

  // ------------------------------------------------------------------- runs

  datatype Op<V> = Request(name: string, params: V) | Next | Drain

  datatype Outcome<V> =
    | Answered(id: nat, answer: Result<V, Error>)
    | Handed(handed: seq<Notification<V>>)
    | NextFailed(error: Error)

  /** One call. An answer records the id its request carried. */
  function Step<V>(c: Codec<V>, s: State<V>, op: Op<V>): (Outcome<V>, State<V>) {
    match op
    case Request(name, params) =>
      var (r, t) := RequestInner(c, s, name, params, false);
      (Answered(s.nextId, r), t)
    case Next =>
      var (r, t) := NextNotification(c, s);
      (if r.Success? then Handed([r.value]) else NextFailed(r.error), t)
    case Drain => (Handed(s.queue), s.(queue := []))
  }

  function Run<V>(c: Codec<V>, s: State<V>, ops: seq<Op<V>>): (seq<Outcome<V>>, State<V>)
    decreases |ops|
  {
    if ops == [] then ([], s)
    else
      var (o, t) := Step(c, s, ops[0]);
      var (os, u) := Run(c, t, ops[1..]);
      ([o] + os, u)
  }

  /** The notifications among the decoded messages, in wire order. */
  function Notices<V>(log: seq<WireMessage<V>>): seq<Notification<V>> {
    if log == [] then []
    else
      var last := log[|log| - 1];
      Notices(log[..|log| - 1]) + (if last.Notice? then [last.notification] else [])
  }

  function HandedBy<V>(o: Outcome<V>): seq<Notification<V>> {
    if o.Handed? then o.handed else []
  }

  function HandedOver<V>(outcomes: seq<Outcome<V>>): seq<Notification<V>> {
    if outcomes == [] then [] else HandedBy(outcomes[0]) + HandedOver(outcomes[1..])
  }

  predicate Overflowed<V>(o: Outcome<V>) {
    o.Answered? && o.answer == Failure(NotificationQueueFull)
  }

  function Overflows<V>(outcomes: seq<Outcome<V>>): nat {
    if outcomes == [] then 0 else (if Overflowed(outcomes[0]) then 1 else 0) + Overflows(outcomes[1..])
  }

  // ----------------------------------------------------------- conservation

  /** Notifications handed out, then those queued, are those decoded so far. */
  ghost predicate Kept<V>(handed: seq<Notification<V>>, s: State<V>) {
    handed + s.queue == Notices(s.log)
  }

  lemma {:induction false} ReceiveErrors(buffer: seq<byte>, inbound: seq<Read>)
    ensures Receive(buffer, inbound).result != Failure(NotificationQueueFull)
    decreases |inbound|
  {
    hide FrontOf, Pushed;
    if FrontOf(buffer).Partial? && inbound != [] && inbound[0].Chunk? && inbound[0].bytes != []
       && Pushed(buffer, inbound[0].bytes).Success? {
      ReceiveErrors(Pushed(buffer, inbound[0].bytes).value, inbound[1..]);
    }
  }

  /** Reading touches the stream and the log only, and logs what it returns. */
  lemma ReadShape<V>(c: Codec<V>, s: State<V>)
    ensures var (r, t) := ReadMessage(c, s);
      && t == s.(buffer := t.buffer, inbound := t.inbound, log := t.log)
      && r != Failure(NotificationQueueFull)
      && (r.Success? ==> |t.inbound| < |s.inbound| || (|t.inbound| == |s.inbound| && |t.buffer| < |s.buffer|))
      && t.log == (if r.Success? then s.log + [r.value] else s.log)
      && Notices(t.log) == Notices(s.log) + (if r.Success? && r.value.Notice? then [r.value.notification] else [])
  {
    ReceiveErrors(s.buffer, s.inbound);
    var (r, t) := ReadMessage(c, s);
    if r.Success? { assert t.log[..|t.log| - 1] == s.log; }
  }

  lemma SendShape<V>(c: Codec<V>, s: State<V>, o: Outgoing<V>)
    ensures var (r, t) := SendValue(c, s, o);
      && t == s.(writes := t.writes, out := t.out, sent := t.sent, torn := t.torn)
      && (t.sent == s.sent || t.sent == s.sent + [o]) && (r.Success? ==> t.sent == s.sent + [o])
      && r != Failure(NotificationQueueFull)
  {
  }

  /** Denying touches the outgoing side only. */
  lemma DenyShape<V>(c: Codec<V>, s: State<V>, requestId: V)
    ensures var (e, t) := Deny(c, s, requestId);
      && t == s.(writes := t.writes, out := t.out, sent := t.sent, torn := t.torn) && s.sent <= t.sent
      && e in {ForbiddenAction, RequestTooLarge, TimedOut, TransportFailed}
  {
  }

  /** What one wait does to the queue, the log, the ids and the outgoing side. */
  lemma {:induction false} WaitAccount<V>(c: Codec<V>, s: State<V>, expected: nat, handed: seq<Notification<V>>)
    ensures var (r, t) := WaitForResponse(c, s, expected);
      && s.log <= t.log && s.sent <= t.sent
      && t.nextId == s.nextId && t.pending == s.pending && t.initialized == s.initialized
      && (|s.queue| <= MAX_NOTIFICATION_QUEUE ==> |t.queue| <= MAX_NOTIFICATION_QUEUE)
      && (r != Failure(NotificationQueueFull) && Kept(handed, s) ==> Kept(handed, t))
      && |t.queue| + |Notices(s.log)| + (if r == Failure(NotificationQueueFull) then 1 else 0)
          == |s.queue| + |Notices(t.log)|
      && (r.Success? ==> |s.log| < |t.log| && t.log[|t.log| - 1] == Response(expected, Some(r.value), None))
    decreases |s.inbound|, |s.buffer|
  {
    hide ReadMessage, Deny, SendValue, Notices;
    var (message, t) := ReadMessage(c, s);
    ReadShape(c, s);
    match message
    case Failure(_) =>
    case Success(Response(_, _, _)) =>
    case Success(ServerRequest(requestId)) => DenyShape(c, t, requestId);
    case Success(Notice(n)) =>
      if |t.queue| < MAX_NOTIFICATION_QUEUE {
        var w := t.(queue := t.queue + [n]);
        assert handed + w.queue == handed + s.queue + [n];
        WaitAccount(c, w, expected, handed);
      }
  }

  /** Taking one notification keeps the account of notifications. */
  lemma NextAccount<V>(c: Codec<V>, s: State<V>, handed: seq<Notification<V>>)
    ensures var (r, t) := NextNotification(c, s);
      var out := if r.Success? then [r.value] else [];
      && s.log <= t.log && s.sent <= t.sent && t.nextId == s.nextId && |t.queue| <= |s.queue|
      && (Kept(handed, s) ==> Kept(handed + out, t))
      && |out| + |t.queue| + |Notices(s.log)| == |s.queue| + |Notices(t.log)|
  {
    hide ReadMessage, Deny, Notices;
    if s.queue == [] {
      ReadShape(c, s);
      var (message, w) := ReadMessage(c, s);
      if message.Success? && message.value.ServerRequest? { DenyShape(c, w, message.value.requestId); }
      assert handed + s.queue == handed;
      assert handed + [] + [] == handed;
    } else {
      assert handed + [s.queue[0]] + s.queue[1..] == handed + s.queue;
    }
  }

  /** So does one request, with what it says about ids and the answer. */
  lemma RequestAccount<V>(c: Codec<V>, s: State<V>, name: string, params: V, handed: seq<Notification<V>>)
    ensures var (r, t) := RequestInner(c, s, name, params, false);
      && s.log <= t.log && s.sent <= t.sent
      && s.nextId <= t.nextId && t.initialized == s.initialized && t.pending == s.pending
      && (|s.queue| <= MAX_NOTIFICATION_QUEUE ==> |t.queue| <= MAX_NOTIFICATION_QUEUE)
      && (r != Failure(NotificationQueueFull) && Kept(handed, s) ==> Kept(handed, t))
      && |t.queue| + |Notices(s.log)| + (if r == Failure(NotificationQueueFull) then 1 else 0)
          == |s.queue| + |Notices(t.log)|
      && (r.Success? ==>
            && t.nextId == s.nextId + 1 && |s.log| < |t.log|
            && t.log[|t.log| - 1] == Response(s.nextId, Some(r.value), None)
            && |s.sent| < |t.sent| && t.sent[|s.sent|] == Call(name, s.nextId, params))
  {
    hide WaitForResponse, SendValue, Notices;
    if s.pending < MAX_PENDING_REQUESTS && s.initialized && s.nextId < U64_MAX {
      var t := s.(nextId := s.nextId + 1, pending := s.pending + 1);
      SendShape(c, t, Call(name, s.nextId, params));
      var (sent, u) := SendValue(c, t, Call(name, s.nextId, params));
      if sent.Success? {
        assert Kept(handed, s) ==> Kept(handed, u);
        WaitAccount(c, u, s.nextId, handed);
      }
    }
  }

  /** One call keeps the account of notifications, except that a full queue
      loses exactly the one that did not fit. */
  lemma StepAccount<V>(c: Codec<V>, s: State<V>, op: Op<V>, handed: seq<Notification<V>>)
    ensures var (o, t) := Step(c, s, op);
      && s.log <= t.log
      && (|s.queue| <= MAX_NOTIFICATION_QUEUE ==> |t.queue| <= MAX_NOTIFICATION_QUEUE)
      && (!Overflowed(o) && Kept(handed, s) ==> Kept(handed + HandedBy(o), t))
      && |HandedBy(o)| + |t.queue| + |Notices(s.log)| + (if Overflowed(o) then 1 else 0)
          == |s.queue| + |Notices(t.log)|
  {
    hide RequestInner, NextNotification, Notices;
    match op
    case Request(name, params) =>
      RequestAccount(c, s, name, params, handed);
      assert handed + [] == handed;
    case Next =>
      NextAccount(c, s, handed);
      assert handed + [] == handed;
    case Drain =>
  }

  lemma {:induction false} RunCount<V>(c: Codec<V>, s: State<V>, ops: seq<Op<V>>)
    ensures var (os, t) := Run(c, s, ops);
      |HandedOver(os)| + |t.queue| + |Notices(s.log)| + Overflows(os) == |s.queue| + |Notices(t.log)|
    decreases |ops|
  {
    hide Step, Notices;
    if ops != [] {
      var t := Step(c, s, ops[0]).1;
      StepAccount(c, s, ops[0], []);
      RunCount(c, t, ops[1..]);
      assert Run(c, s, ops).0[1..] == Run(c, t, ops[1..]).0;
    }
  }

  lemma {:induction false} RunKept<V>(c: Codec<V>, s: State<V>, ops: seq<Op<V>>, handed: seq<Notification<V>>)
    requires Kept(handed, s) && Overflows(Run(c, s, ops).0) == 0
    ensures var (os, t) := Run(c, s, ops); Kept(handed + HandedOver(os), t)
    decreases |ops|
  {
    hide Step, Notices;
    if ops == [] {
      assert handed + [] == handed;
    } else {
      var (o, t) := Step(c, s, ops[0]);
      var os := Run(c, t, ops[1..]).0;
      assert Run(c, s, ops).0[1..] == os;
      StepAccount(c, s, ops[0], handed);
      RunKept(c, t, ops[1..], handed + HandedBy(o));
      assert handed + HandedBy(o) + HandedOver(os) == handed + (HandedBy(o) + HandedOver(os));
    }
  }

  /** Over any run: notifications handed out, then those still queued, are the
      notifications decoded so far in wire order if and only if no call reported
      a full queue; each such report stands for exactly one lost notification. */
  lemma {:induction false} Conservation<V>(c: Codec<V>, s: State<V>, ops: seq<Op<V>>, handed: seq<Notification<V>>)
    requires Kept(handed, s)
    ensures var (os, t) := Run(c, s, ops);
      && (Kept(handed + HandedOver(os), t) <==> Overflows(os) == 0)
      && |handed| + |HandedOver(os)| + |t.queue| + Overflows(os) == |Notices(t.log)|
  {
    RunCount(c, s, ops);
    if Overflows(Run(c, s, ops).0) == 0 {
      RunKept(c, s, ops, handed);
    }
  }

  /** The queue stays within its limit over any run. */
  lemma {:induction false} QueueBound<V>(c: Codec<V>, s: State<V>, ops: seq<Op<V>>)
    requires |s.queue| <= MAX_NOTIFICATION_QUEUE
    ensures |Run(c, s, ops).1.queue| <= MAX_NOTIFICATION_QUEUE
    decreases |ops|
  {
    hide Step, Notices;
    if ops != [] {
      StepAccount(c, s, ops[0], []);
      QueueBound(c, Step(c, s, ops[0]).1, ops[1..]);
    }
  }

  // ------------------------------------------------------------ correlation

  predicate Accepted<V>(o: Outcome<V>) {
    o.Answered? && o.answer.Success?
  }

  /** How many messages had been decoded when each call of a run returned. */
  function Marks<V>(c: Codec<V>, s: State<V>, ops: seq<Op<V>>): (marks: seq<nat>)
    ensures |marks| == |ops|
    decreases |ops|
  {
    if ops == [] then []
    else
      var t := Step(c, s, ops[0]).1;
      [|t.log|] + Marks(c, t, ops[1..])
  }

  /** The answer was taken from the message decoded last when it returned. */
  ghost predicate TakenFrom<V>(o: Outcome<V>, mark: nat, log: seq<WireMessage<V>>)
    requires Accepted(o)
  {
    0 < mark <= |log| && log[mark - 1] == Response(o.id, Some(o.answer.value), None)
  }

  lemma StepCorrelation<V>(c: Codec<V>, s: State<V>, op: Op<V>)
    ensures var (o, t) := Step(c, s, op);
      && s.log <= t.log && s.nextId <= t.nextId && s.sent <= t.sent
      && (Accepted(o) ==> s.nextId == o.id < t.nextId && |s.log| < |t.log| && TakenFrom(o, |t.log|, t.log))
      && (Accepted(o) ==> op.Request? && |s.sent| < |t.sent| && t.sent[|s.sent|] == Call(op.name, o.id, op.params))
  {
    hide RequestInner, NextNotification, Notices;
    match op
    case Request(name, params) => RequestAccount(c, s, name, params, []);
    case Next => NextAccount(c, s, []);
    case Drain =>
  }

  /** Over any run with deadlines and late, duplicate or foreign answers:
      every success comes from a decoded response carrying that request's own id,
      later successes have larger ids and later responses, so no id is reused, no
      response is accepted twice, and an answer to a request that was given up
      never reaches a later one. */
  lemma {:induction false} Correlation<V>(c: Codec<V>, s: State<V>, ops: seq<Op<V>>)
    ensures var (os, t) := Run(c, s, ops);
      var marks := Marks(c, s, ops);
      && s.log <= t.log && s.nextId <= t.nextId && |os| == |ops|
      && (forall i :: 0 <= i < |os| && Accepted(os[i]) ==>
            && TakenFrom(os[i], marks[i], t.log) && |s.log| < marks[i]
            && s.nextId <= os[i].id < t.nextId)
      && (forall i, j :: 0 <= i < j < |os| && Accepted(os[i]) && Accepted(os[j]) ==>
            os[i].id < os[j].id && marks[i] < marks[j])
    decreases |ops|
  {
    hide Step;
    if ops != [] {
      var (o, t) := Step(c, s, ops[0]);
      var (os, u) := Run(c, t, ops[1..]);
      StepCorrelation(c, s, ops[0]);
      Correlation(c, t, ops[1..]);
      assert Accepted(o) ==> TakenFrom(o, |t.log|, u.log);
    }
  }

  // --------------------------------------------------------------- liveness

  /** No deadline falls inside the schedule. */
  ghost predicate Timely(inbound: seq<Read>) {
    forall i :: 0 <= i < |inbound| ==> inbound[i] != Expired
  }

  /** The next call takes the next line of the stream, if one is still to come. */
  lemma {:induction false} ReceiveNext(buffer: seq<byte>, inbound: seq<Read>)
    requires Timely(inbound)
    requires Lines(buffer + Wire(inbound)).lines != []
    ensures var r := Receive(buffer, inbound);
      && Timely(r.feed)
      && r.result == Success(Lines(buffer + Wire(inbound)).lines[0])
      && Lines(r.buffer + Wire(r.feed)).lines == Lines(buffer + Wire(inbound)).lines[1..]
    decreases |inbound|
  {
    FrontStable(buffer, Wire(inbound));
    match FrontOf(buffer)
    case Line(line, rest) =>
    case TooLong =>
    case Blank(rest) =>
    case Partial =>
      assert Wire(inbound) == [] ==> buffer + Wire(inbound) == buffer;
      if inbound != [] && !Breaks(inbound[0]) {
        assert inbound[0].Chunk? && inbound[0].bytes != [];
        var bytes, more := inbound[0].bytes, Wire(inbound[1..]);
        assert buffer + Wire(inbound) == buffer + bytes + more;
        PushRefused(buffer, bytes, more);
        ReceiveNext(buffer + bytes, inbound[1..]);
      }
  }

  /** The session is on a timely connection that still brings these lines. */
  ghost predicate Brings<V>(s: State<V>, lines: seq<seq<byte>>) {
    Timely(s.inbound) && Lines(s.buffer + Wire(s.inbound)).lines == lines
  }

  lemma BringsQueue<V>(s: State<V>, t: State<V>, lines: seq<seq<byte>>)
    requires Brings(s, lines) && s.buffer == t.buffer && s.inbound == t.inbound
    ensures Brings(t, lines)
  {
  }

  lemma ReadsNext<V>(c: Codec<V>, s: State<V>, lines: seq<seq<byte>>)
    requires lines != [] && Brings(s, lines)
    ensures ReadMessage(c, s).0 == Understood(c, lines[0])
    ensures Brings(ReadMessage(c, s).1, lines[1..])
  {
    hide Receive, Lines, Wire, Understood;
    ReceiveNext(s.buffer, s.inbound);
  }

  /** A request whose own answer is the next thing on the wire, after any
      notifications that still fit in the queue, succeeds with that answer and
      keeps those notifications. */
  lemma {:induction false} AnswerArrives<V>(c: Codec<V>, s: State<V>, expected: nat, answer: V,
                                            lines: seq<seq<byte>>, notices: seq<Notification<V>>)
    requires |lines| > |notices| && |s.queue| + |notices| <= MAX_NOTIFICATION_QUEUE
    requires Brings(s, lines)
    requires forall i :: 0 <= i < |notices| ==> Understood(c, lines[i]) == Success(Notice(notices[i]))
    requires Understood(c, lines[|notices|]) == Success(Response(expected, Some(answer), None))
    ensures WaitForResponse(c, s, expected).0 == Success(answer)
    ensures WaitForResponse(c, s, expected).1.queue == s.queue + notices
    decreases |notices|
  {
    hide ReadMessage, Understood, Brings, Notices;
    ReadsNext(c, s, lines);
    ReadShape(c, s);
    var t := ReadMessage(c, s).1;
    if notices == [] {
      assert s.queue + notices == s.queue;
    } else {
      assert Understood(c, lines[0]) == Success(Notice(notices[0]));
      var w := t.(queue := t.queue + [notices[0]]);
      assert Brings(w, lines[1..]) by { BringsQueue(t, w, lines[1..]); }
      assert WaitForResponse(c, s, expected) == WaitForResponse(c, w, expected);
      AnswerArrives(c, w, expected, answer, lines[1..], notices[1..]);
      assert w.queue + notices[1..] == s.queue + notices;
    }
  }

  // ------------------------------------------------------ the session object

  /** The far end, as the session meets it: what each await will bring. */
  class Transport {
    var inbound: seq<Read>
    var writes: seq<Write>
    var out: seq<byte>

    constructor (inbound: seq<Read>, writes: seq<Write>)
      ensures this.inbound == inbound && this.writes == writes && out == []
    {
      this.inbound, this.writes, this.out := inbound, writes, [];
    }

    method Read() returns (r: Read)
      modifies this`inbound
      ensures old(inbound) == [] ==> r == Chunk([]) && inbound == []
      ensures old(inbound) != [] ==> r == old(inbound)[0] && inbound == old(inbound)[1..]
    {
      if inbound == [] { return Chunk([]); }
      r := inbound[0];
      inbound := inbound[1..];
    }

    method Write(bytes: seq<byte>) returns (w: Write)
      modifies this`writes, this`out
      ensures w == if old(writes) == [] then Written else old(writes)[0]
      ensures writes == if old(writes) == [] then [] else old(writes)[1..]
      ensures out == old(out) + bytes[..PutOut(w, |bytes|)]
    {
      w := Written;
      if writes != [] {
        w, writes := writes[0], writes[1..];
      }
      out := out + bytes[..PutOut(w, |bytes|)];
    }
  }

  class Session<V> {
    const codec: Codec<V>
    const transport: Transport
    const decoder: JsonlDecoder
    var notifications: seq<Notification<V>>
    var nextId: nat
    var pending: nat
    var initialized: bool
    ghost var sent: seq<Outgoing<V>>
    ghost var torn: nat
    ghost var log: seq<WireMessage<V>>

    /** The session as connecting leaves it before its handshake. */
    constructor (codec: Codec<V>, transport: Transport)
      ensures this.codec == codec && this.transport == transport
      ensures Value() == State([], transport.inbound, transport.writes, transport.out, [], 0, [], 1, 0, false, [])
    {
      this.codec, this.transport := codec, transport;
      decoder := new JsonlDecoder();
      notifications, nextId, pending, initialized := [], 1, 0, false;
      sent, torn, log := [], 0, [];
    }

    ghost function Value(): State<V>
      reads this, transport, decoder
    {
      State(decoder.buffer, transport.inbound, transport.writes, transport.out, sent, torn,
            notifications, nextId, pending, initialized, log)
    }

    method Queue(n: Notification<V>) returns (r: Result<(), Error>)
      modifies this`notifications
      ensures |old(notifications)| >= MAX_NOTIFICATION_QUEUE ==>
        r == Failure(NotificationQueueFull) && notifications == old(notifications)
      ensures |old(notifications)| < MAX_NOTIFICATION_QUEUE ==>
        r == Success(()) && notifications == old(notifications) + [n]
    {
      if |notifications| >= MAX_NOTIFICATION_QUEUE {
        return Failure(NotificationQueueFull);
      }
      notifications := notifications + [n];
      return Success(());
    }

    method Send(o: Outgoing<V>) returns (r: Result<(), Error>)
      modifies transport, this`sent, this`torn
      ensures (r, Value()) == SendValue(codec, old(Value()), o)
    {
      var encoded := codec.encode(o);
      if |encoded| > MAX_JSONL_LINE_BYTES {
        return Failure(RequestTooLarge);
      }
      encoded := Framed(encoded);
      var w := transport.Write(encoded);
      ghost var put := PutOut(w, |encoded|);
      if put == |encoded| { sent := sent + [o]; } else if put > 0 { torn := torn + 1; }
      match w
      case Written => r := Success(());
      case WriteExpired(_) => r := Failure(TimedOut);
      case WriteFault(_) => r := Failure(TransportFailed);
    }

    /** The next line off the transport, reading as often as it takes. */
    method NextFrame() returns (r: Result<seq<byte>, Error>)
      modifies transport`inbound, decoder
      ensures Received(r, decoder.buffer, transport.inbound)
           == Receive(old(decoder.buffer), old(transport.inbound))
    {
      hide FrontOf, Pushed, Receive;
      ghost var whole := Receive(decoder.buffer, transport.inbound);
      while true
        invariant Receive(decoder.buffer, transport.inbound) == whole
        decreases |transport.inbound|
      {
        ReceiveOnce(decoder.buffer, transport.inbound);
        var next := decoder.NextLine();
        if next.Failure? { return Failure(next.error); }
        if next.value.Some? { return Success(next.value.value); }
        var arrived := transport.Read();
        match arrived
        case Expired => return Failure(TimedOut);
        case Fault => return Failure(TransportFailed);
        case Chunk(bytes) =>
          if bytes == [] { return Failure(EndOfStream); }
          var pushed := decoder.Push(bytes);
          if pushed.Failure? { return Failure(pushed.error); }
      }
    }

    method Take() returns (r: Result<WireMessage<V>, Error>)
      modifies this`log, transport, decoder
      ensures (r, Value()) == ReadMessage(codec, old(Value()))
    {
      hide Receive, Understood;
      var line := NextFrame();
      if line.Failure? { return Failure(line.error); }
      r := Understood(codec, line.value);
      if r.Success? { log := log + [r.value]; }
    }

    method DenyServerRequest(requestId: V) returns (e: Error)
      modifies transport, this`sent, this`torn
      ensures (e, Value()) == Deny(codec, old(Value()), requestId)
    {
      var sent := Send(Denial(requestId));
      e := if sent.Success? then ForbiddenAction else sent.error;
    }

    method Await(expected: nat) returns (r: Result<V, Error>)
      modifies this`log, this`sent, this`torn, this`notifications, transport, decoder
      ensures (r, Value()) == WaitForResponse(codec, old(Value()), expected)
    {
      hide ReadMessage, Deny;
      ghost var start := Value();
      while true
        invariant WaitForResponse(codec, Value(), expected) == WaitForResponse(codec, start, expected)
        modifies this`log, this`sent, this`torn, this`notifications, transport, decoder
        decreases |transport.inbound|, |decoder.buffer|
      {
        ReadShape(codec, Value());
        var message := Take();
        if message.Failure? { return Failure(message.error); }
        match message.value
        case Response(id, result, error) =>
          if id != expected { return Failure(CorrelationFailed); }
          return Verdict(codec, result, error);
        case ServerRequest(requestId) =>
          var e := DenyServerRequest(requestId);
          return Failure(e);
        case Notice(n) =>
          var queued := Queue(n);
          if queued.Failure? { return Failure(queued.error); }
      }
    }

    /** One request with a new id; the session keeps waiting through
        notifications and gives up at the deadline or at the first surprise. */
    method Ask(name: string, params: V, initialize: bool) returns (r: Result<V, Error>)
      modifies this, transport, decoder
      ensures (r, Value()) == RequestInner(codec, old(Value()), name, params, initialize)
    {
      hide WaitForResponse, SendValue;
      if pending >= MAX_PENDING_REQUESTS || (!initialize && !initialized) {
        return Failure(MalformedProtocol);
      }
      var id := nextId;
      if nextId >= U64_MAX { return Failure(MalformedProtocol); }
      nextId := nextId + 1;
      pending := pending + 1;
      var sent := Send(Call(name, id, params));
      if sent.Failure? {
        r := Failure(sent.error);
      } else {
        r := Await(id);
      }
      pending := SaturatingDecrement(pending);
    }

    method TakeNotification() returns (r: Result<Notification<V>, Error>)
      modifies this`log, this`sent, this`torn, this`notifications, transport, decoder
      ensures (r, Value()) == NextNotification(codec, old(Value()))
    {
      hide ReadMessage, Deny;
      if notifications != [] {
        r := Success(notifications[0]);
        notifications := notifications[1..];
        return;
      }
      ReadShape(codec, Value());
      var message := Take();
      if message.Failure? { return Failure(message.error); }
      match message.value
      case Notice(n) => r := Success(n);
      case Response(_, _, _) => r := Failure(CorrelationFailed);
      case ServerRequest(requestId) =>
        var e := DenyServerRequest(requestId);
        r := Failure(e);
    }

    /** The public calls, each exactly one step of a run. */
    method Perform(op: Op<V>) returns (o: Outcome<V>)
      modifies this, transport, decoder
      ensures (o, Value()) == Step(codec, old(Value()), op)
    {
      hide RequestInner, NextNotification;
      match op
      case Request(name, params) =>
        var id := nextId;
        var r := Ask(name, params, false);
        o := Answered(id, r);
      case Next =>
        var r := TakeNotification();
        o := if r.Success? then Handed([r.value]) else NextFailed(r.error);
      case Drain =>
        o := Handed(notifications);
        notifications := [];
    }
  }
}
