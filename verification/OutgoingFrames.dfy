/** What the session puts on the wire: whole frames of the values sent, unless a
    write was cut off in the middle. */
module OutgoingFrames {
  import opened Prelude
  import opened JsonLines
  import opened AppServerSession

  function Encodings<V>(c: Codec<V>, sent: seq<Outgoing<V>>): seq<seq<byte>> {
    if sent == [] then [] else Encodings(c, sent[..|sent| - 1]) + [c.encode(sent[|sent| - 1])]
  }

  lemma {:induction false} FramedAppend(messages: seq<seq<byte>>, message: seq<byte>)
    ensures FramedAll(messages + [message]) == FramedAll(messages) + Framed(message)
  {
    if messages == [] {
      assert [message][1..] == [];
    } else {
      assert (messages + [message])[1..] == messages[1..] + [message];
      FramedAppend(messages[1..], message);
    }
  }

  lemma FramesExtend<V>(c: Codec<V>, sent: seq<Outgoing<V>>, o: Outgoing<V>)
    ensures FramedAll(Encodings(c, sent + [o])) == FramedAll(Encodings(c, sent)) + Framed(c.encode(o))
  {
    assert (sent + [o])[..|sent|] == sent;
    FramedAppend(Encodings(c, sent), c.encode(o));
  }

  /** The bytes put out are exactly the frames of the values sent, in order. */
  ghost predicate Intact<V>(c: Codec<V>, s: State<V>) {
    s.out == FramedAll(Encodings(c, s.sent))
  }

  /** How many bytes are out beyond the frames of the values sent. */
  ghost function Stray<V>(c: Codec<V>, s: State<V>): int {
    |s.out| - |FramedAll(Encodings(c, s.sent))|
  }

  /** Only values within the line limit were added, each torn write left at least
      one stray byte, and without one the frames stay intact. */
  ghost predicate Wrote<V>(c: Codec<V>, s: State<V>, t: State<V>) {
    && s.sent <= t.sent && (forall i :: |s.sent| <= i < |t.sent| ==> |c.encode(t.sent[i])| <= MAX_JSONL_LINE_BYTES)
    && s.torn <= t.torn && Stray(c, s) + (t.torn - s.torn) <= Stray(c, t)
    && (Intact(c, s) && t.torn == s.torn ==> Intact(c, t))
  }

  lemma WroteNothing<V>(c: Codec<V>, s: State<V>, t: State<V>)
    requires t.out == s.out && t.sent == s.sent && t.torn == s.torn
    ensures Wrote(c, s, t)
  {
  }

  lemma WroteTwice<V>(c: Codec<V>, s: State<V>, t: State<V>, u: State<V>)
    requires Wrote(c, s, t) && Wrote(c, t, u)
    ensures Wrote(c, s, u)
  {
  }

  lemma SendWrote<V>(c: Codec<V>, s: State<V>, o: Outgoing<V>)
    ensures Wrote(c, s, SendValue(c, s, o).1)
  {
    hide Encodings, FramedAll;
    FramesExtend(c, s.sent, o);
    var frame := Framed(c.encode(o));
    assert frame[..|frame|] == frame && s.out + frame[..0] == s.out;
  }

  lemma {:induction false} WaitWrote<V>(c: Codec<V>, s: State<V>, expected: nat)
    ensures Wrote(c, s, WaitForResponse(c, s, expected).1)
    decreases |s.inbound|, |s.buffer|
  {
    hide ReadMessage, SendValue, Wrote;
    var (message, t) := ReadMessage(c, s);
    ReadShape(c, s);
    WroteNothing(c, s, t);
    match message
    case Failure(_) =>
    case Success(Response(_, _, _)) =>
    case Success(ServerRequest(requestId)) =>
      SendWrote(c, t, Denial(requestId));
      WroteTwice(c, s, t, SendValue(c, t, Denial(requestId)).1);
    case Success(Notice(n)) =>
      if |t.queue| < MAX_NOTIFICATION_QUEUE {
        var w := t.(queue := t.queue + [n]);
        WroteNothing(c, s, w);
        WaitWrote(c, w, expected);
        WroteTwice(c, s, w, WaitForResponse(c, w, expected).1);
      }
  }

  lemma RequestWrote<V>(c: Codec<V>, s: State<V>, name: string, params: V)
    ensures Wrote(c, s, RequestInner(c, s, name, params, false).1)
  {
    hide WaitForResponse, SendValue, Wrote;
    var result := RequestInner(c, s, name, params, false).1;
    if s.pending >= MAX_PENDING_REQUESTS || !s.initialized || s.nextId >= U64_MAX {
      WroteNothing(c, s, result);
    } else {
      var t := s.(nextId := s.nextId + 1, pending := s.pending + 1);
      var (sent, u) := SendValue(c, t, Call(name, s.nextId, params));
      WroteNothing(c, s, t);
      SendWrote(c, t, Call(name, s.nextId, params));
      WroteTwice(c, s, t, u);
      var w := if sent.Failure? then u else WaitForResponse(c, u, s.nextId).1;
      if sent.Success? {
        WaitWrote(c, u, s.nextId);
        WroteTwice(c, s, u, w);
      }
      WroteNothing(c, w, result);
      WroteTwice(c, s, w, result);
    }
  }

  lemma NextWrote<V>(c: Codec<V>, s: State<V>)
    ensures Wrote(c, s, NextNotification(c, s).1)
  {
    hide ReadMessage, SendValue, Wrote;
    if s.queue != [] {
      WroteNothing(c, s, NextNotification(c, s).1);
    } else {
      var (message, t) := ReadMessage(c, s);
      ReadShape(c, s);
      WroteNothing(c, s, t);
      if message.Success? && message.value.ServerRequest? {
        SendWrote(c, t, Denial(message.value.requestId));
        WroteTwice(c, s, t, SendValue(c, t, Denial(message.value.requestId)).1);
      }
    }
  }

  lemma {:induction false} RunWrote<V>(c: Codec<V>, s: State<V>, ops: seq<Op<V>>)
    ensures Wrote(c, s, Run(c, s, ops).1)
    decreases |ops|
  {
    hide RequestInner, NextNotification, Wrote;
    if ops == [] {
      WroteNothing(c, s, s);
    } else {
      var t := Step(c, s, ops[0]).1;
      match ops[0] {
        case Request(name, params) => RequestWrote(c, s, name, params);
        case Next => NextWrote(c, s);
        case Drain => WroteNothing(c, s, t);
      }
      RunWrote(c, t, ops[1..]);
      WroteTwice(c, s, t, Run(c, t, ops[1..]).1);
    }
  }

  /** Over any run, with requests, denials and failing writes: the bytes put out
      are the frames of the values sent, in order, if and only if no write was
      cut off in the middle. */
  lemma IntactExactly<V>(c: Codec<V>, s: State<V>, ops: seq<Op<V>>)
    requires Intact(c, s)
    ensures var t := Run(c, s, ops).1;
      Intact(c, t) <==> t.torn == s.torn
  {
    RunWrote(c, s, ops);
  }

  lemma {:induction false} EncodingsAt<V>(c: Codec<V>, sent: seq<Outgoing<V>>)
    ensures |Encodings(c, sent)| == |sent|
    ensures forall i :: 0 <= i < |sent| ==> Encodings(c, sent)[i] == c.encode(sent[i])
  {
    if sent != [] { EncodingsAt(c, sent[..|sent| - 1]); }
  }

  lemma NothingSent<V>(c: Codec<V>)
    ensures FramedAll(Encodings(c, [])) == []
  {
  }

  /** The other side, framing alike, hears every value sent, once and in order,
      for every cut of the bytes, after any run without a torn write. */
  lemma PeerHearsWhatWasSent<V>(c: Codec<V>, s: State<V>, ops: seq<Op<V>>, feed: seq<Read>)
    requires s.out == [] && s.sent == [] && Run(c, s, ops).1.torn == s.torn
    requires forall o :: LF !in c.encode(o) && Faithful(c.encode(o))
    requires Wire(feed) == Run(c, s, ops).1.out
    ensures Deliver([], feed) == Heard(Encodings(c, Run(c, s, ops).1.sent), Cause(feed))
  {
    hide Run, Deliver, Wire, FramedAll, Encodings;
    var t := Run(c, s, ops).1;
    RunWrote(c, s, ops);
    assert Intact(c, s) by { NothingSent(c); }
    EncodingsAt(c, t.sent);
    FramedMessagesSurvive(Encodings(c, t.sent), feed);
  }

  /** After a torn write the next value is lost: the other side hears it glued to
      the fragment, as one line that nobody sent. */
  lemma TornWriteGlues(fragment: seq<byte>, message: seq<byte>, more: seq<byte>)
    requires fragment != [] && LF !in fragment && LF !in message && Faithful(message)
    requires |fragment| + |message| <= MAX_JSONL_LINE_BYTES
    ensures FrontOf(fragment + Framed(message) + more) == Line(fragment + message, more)
  {
    var line := fragment + message;
    FrameRoundTrip(line, more);
    assert fragment + Framed(message) + more == Framed(line) + more;
    assert line[|line| - 1] == message[|message| - 1];
  }
}
