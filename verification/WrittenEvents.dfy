/** Bodies as a server writes them, and what the parser recovers from them. */
module WrittenEvents {
  import opened Prelude
  import opened ServerSentEvents

  // ------------------------------------------------------------ the text side

  /** A line of an event: a data line with or without its space, or any line
      that does not start a data field, such as a comment. */
  datatype Line = Spaced(value: Text) | Bare(value: Text) | Other(text: Text)

  function LineText(l: Line): Text {
    match l
    case Spaced(value) => FIELD + [" "] + value
    case Bare(value) => FIELD + value
    case Other(text) => text
  }

  ghost predicate Plain(t: Text) {
    forall k :: 0 <= k < |t| ==> !IsNewline(t[k])
  }

  ghost predicate Proper(l: Line) {
    match l
    case Spaced(value) => Plain(value)
    case Bare(value) => Plain(value) && (value == [] || value[0] != " ")
    case Other(text) => Plain(text) && !(FIELD <= text)
  }

  /** The lines of one event, with any newline character between two of them. */
  function EventText(lines: seq<Line>, breaks: seq<Character>): Text
    requires |lines| == |breaks| + 1
  {
    if breaks == [] then LineText(lines[0])
    else LineText(lines[0]) + [breaks[0]] + EventText(lines[1..], breaks[1..])
  }

  function Values(lines: seq<Line>): seq<Text> {
    if lines == [] then [] else (if lines[0].Other? then [] else [lines[0].value]) + Values(lines[1..])
  }

  lemma {:induction false} SplitPlain(t: Text)
    requires Plain(t)
    ensures SplitLines(t) == [t]
  {
    if t != [] {
      SplitPlain(t[1..]);
      assert [t[0]] + t[1..] == t;
    }
  }

  lemma {:induction false} SplitAtBreak(t: Text, newline: Character, more: Text)
    requires Plain(t) && IsNewline(newline)
    ensures SplitLines(t + [newline] + more) == [t] + SplitLines(more)
  {
    var s := t + [newline] + more;
    if t == [] {
      assert s[1..] == more;
    } else {
      assert s[1..] == t[1..] + [newline] + more;
      SplitAtBreak(t[1..], newline, more);
      assert [t[0]] + t[1..] == t;
    }
  }

  lemma FieldText()
    ensures Plain(FIELD) && Plain([" "])
  {
  }

  lemma PlainTwice(a: Text, b: Text)
    requires Plain(a) && Plain(b)
    ensures Plain(a + b)
  {
  }

  lemma LinePlain(l: Line)
    requires Proper(l)
    ensures Plain(LineText(l))
  {
    hide Plain;
    FieldText();
    PlainTwice(FIELD, [" "]);
    if !l.Other? {
      PlainTwice(FIELD, l.value);
      PlainTwice(FIELD + [" "], l.value);
    }
  }

  /** A data line gives its value without one leading space, any other none. */
  lemma DataLinesCons(l: Line, others: seq<Text>)
    requires Proper(l)
    ensures DataLines([LineText(l)] + others) == (if l.Other? then [] else [l.value]) + DataLines(others)
  {
    hide Plain;
    var line := LineText(l);
    assert ([line] + others)[1..] == others;
    if !l.Other? {
      assert line[..5] == FIELD;
      assert line[5..] == if l.Spaced? then [" "] + l.value else l.value;
    }
  }

  lemma NoLines()
    ensures DataLines([]) == [] && Values([]) == []
  {
  }

  lemma {:induction false} DataLinesOfEvent(lines: seq<Line>, breaks: seq<Character>)
    requires |lines| == |breaks| + 1
    requires forall i :: 0 <= i < |lines| ==> Proper(lines[i])
    requires forall i :: 0 <= i < |breaks| ==> IsNewline(breaks[i])
    ensures DataLines(SplitLines(EventText(lines, breaks))) == Values(lines)
    decreases |lines|
  {
    hide SplitLines, DataLines, IsNewline, LineText, Proper;
    var line := LineText(lines[0]);
    LinePlain(lines[0]);
    if breaks == [] {
      SplitPlain(line);
      DataLinesCons(lines[0], []);
      NoLines();
      assert [line] + [] == [line] && lines[1..] == [];
    } else {
      SplitAtBreak(line, breaks[0], EventText(lines[1..], breaks[1..]));
      DataLinesOfEvent(lines[1..], breaks[1..]);
      DataLinesCons(lines[0], SplitLines(EventText(lines[1..], breaks[1..])));
    }
  }

  /** The payload of an event of any mixture of lines is the values of its data
      lines, joined in order; without a data line there is none. */
  lemma PayloadOfEvent(lines: seq<Line>, breaks: seq<Character>)
    requires |lines| == |breaks| + 1
    requires forall i :: 0 <= i < |lines| ==> Proper(lines[i])
    requires forall i :: 0 <= i < |breaks| ==> IsNewline(breaks[i])
    ensures Payload(EventText(lines, breaks)) == if Values(lines) == [] then None else Some(Join(Values(lines)))
  {
    hide DataLines, SplitLines, EventText, Values;
    DataLinesOfEvent(lines, breaks);
  }

  /** Joining puts one line feed between two values and nothing else: the values
      are the lines of what it gives. */
  lemma {:induction false} JoinMeaning(values: seq<Text>)
    requires values != [] && forall i :: 0 <= i < |values| ==> Plain(values[i])
    ensures SplitLines(Join(values)) == values
    ensures forall k :: 0 <= k < |Join(values)| && IsNewline(Join(values)[k]) ==> Join(values)[k] == "\n"
  {
    assert Plain(values[0]);
    if |values| == 1 {
      SplitPlain(values[0]);
    } else {
      assert forall i | 0 <= i < |values| - 1 :: values[1..][i] == values[i + 1];
      JoinMeaning(values[1..]);
      SplitAtBreak(values[0], "\n", Join(values[1..]));
      assert [values[0]] + values[1..] == values;
    }
  }

  // ------------------------------------------------------------ the byte side

  function LineEnd(crlf: bool): seq<byte> {
    if crlf then [CR, LF] else [LF]
  }

  /** One event without the blank line that closes it. */
  function EventBytes(lines: seq<seq<byte>>, crlf: bool): seq<byte> {
    if lines == [] then []
    else if |lines| == 1 then lines[0]
    else lines[0] + LineEnd(crlf) + EventBytes(lines[1..], crlf)
  }

  ghost predicate Unbroken(line: seq<byte>) {
    line != [] && forall i :: 0 <= i < |line| ==> line[i] != LF && line[i] != CR
  }

  /** Neither starts nor ends in a line end, and never has two in a row. */
  ghost predicate Clean(e: seq<byte>) {
    && e != [] && e[0] != LF && e[0] != CR && e[|e| - 1] != LF && e[|e| - 1] != CR
    && forall i :: 0 <= i < |e| - 1 && e[i] == LF ==> e[i + 1] != LF && e[i + 1] != CR
  }

  lemma CleanCons(line: seq<byte>, crlf: bool, rest: seq<byte>)
    requires Unbroken(line) && Clean(rest)
    ensures Clean(line + LineEnd(crlf) + rest)
  {
    var e := line + LineEnd(crlf) + rest;
    var n := |line| + |LineEnd(crlf)|;
    assert forall i | 0 <= i < |line| :: e[i] == line[i];
    assert forall i | 0 <= i < |rest| :: e[n + i] == rest[i];
    forall i | 0 <= i < |e| - 1 && e[i] == LF
      ensures e[i + 1] != LF && e[i + 1] != CR
    {
      if i >= n { assert e[i] == rest[i - n] && e[i + 1] == rest[i - n + 1]; }
    }
  }

  lemma {:induction false} EventBytesClean(lines: seq<seq<byte>>, crlf: bool)
    requires lines != [] && forall i :: 0 <= i < |lines| ==> Unbroken(lines[i])
    ensures Clean(EventBytes(lines, crlf))
  {
    if |lines| > 1 {
      assert forall i | 0 <= i < |lines| - 1 :: lines[1..][i] == lines[i + 1];
      EventBytesClean(lines[1..], crlf);
      CleanCons(lines[0], crlf, EventBytes(lines[1..], crlf));
    }
  }

  /** No separator starts inside a clean event, whatever follows it. */
  lemma NoneInside(e: seq<byte>, more: seq<byte>, j: nat)
    requires Clean(e) && j < |e|
    ensures !SeparatorAt(e + more, j)
  {
    var s := e + more;
    assert s[j] == e[j];
    if j + 1 < |e| {
      assert s[j + 1] == e[j + 1];
      if j + 2 < |e| { assert s[j + 2] == e[j + 2]; }
    }
  }

  lemma FirstWritten(e: seq<byte>, crlf: bool, more: seq<byte>)
    requires Clean(e)
    ensures FrontOf(e + (LineEnd(crlf) + LineEnd(crlf)) + more) == Event(e, more)
  {
    var s := e + (LineEnd(crlf) + LineEnd(crlf)) + more;
    assert s == e + (LineEnd(crlf) + LineEnd(crlf) + more);
    forall j: nat | j < |e|
      ensures !SeparatorAt(s, j)
    {
      NoneInside(e, LineEnd(crlf) + LineEnd(crlf) + more, j);
    }
    assert if crlf then ReturnsAt(s, |e|) && !LineFeedsAt(s, |e|) else LineFeedsAt(s, |e|);
    FirstIsFront(s, |e|);
    assert s[..|e|] == e && s[|e| + Width(s, |e|)..] == more;
  }

  /** An event that was never closed, with or without the end of its last line. */
  lemma LastWritten(e: seq<byte>, tail: seq<byte>)
    requires Clean(e) && (tail == [] || tail == [LF] || tail == [CR, LF])
    ensures FrontOf(e + tail) == Whole && !OnlyBreaks(e + tail)
  {
    var s := e + tail;
    forall j: nat
      ensures !SeparatorAt(s, j)
    {
      if j < |e| { NoneInside(e, tail, j); }
    }
    assert s[0] == e[0];
  }

  // ------------------------------------------------------------ both together

  /** An event as bytes and as the text it is read as. */
  datatype Written = Written(raw: seq<seq<byte>>, crlf: bool, lines: seq<Line>, breaks: seq<Character>)

  ghost predicate WellWritten(e: Written) {
    && e.raw != [] && (forall i :: 0 <= i < |e.raw| ==> Unbroken(e.raw[i]))
    && |e.lines| == |e.breaks| + 1
    && (forall i :: 0 <= i < |e.lines| ==> Proper(e.lines[i]))
    && (forall i :: 0 <= i < |e.breaks| ==> IsNewline(e.breaks[i]))
  }

  /** The events each closed by a blank line, then what is not closed. */
  function Body(events: seq<Written>, tail: seq<byte>): seq<byte> {
    if events == [] then tail
    else
      var e := events[0];
      EventBytes(e.raw, e.crlf) + (LineEnd(e.crlf) + LineEnd(e.crlf)) + Body(events[1..], tail)
  }

  function EachEvent(events: seq<Written>): seq<seq<byte>> {
    if events == [] then [] else [EventBytes(events[0].raw, events[0].crlf)] + EachEvent(events[1..])
  }

  /** What the event says: its data values on one line each, if it has any. */
  function Said(e: Written): seq<Text> {
    if Values(e.lines) == [] then [] else [Join(Values(e.lines))]
  }

  function AllSaid(events: seq<Written>): seq<Text> {
    if events == [] then [] else Said(events[0]) + AllSaid(events[1..])
  }

  lemma {:induction false} CutWritten(events: seq<Written>, tail: seq<byte>)
    requires forall i :: 0 <= i < |events| ==> WellWritten(events[i])
    requires FrontOf(tail) == Whole
    ensures CutAll(Body(events, tail)) == Cut(EachEvent(events), tail)
  {
    hide FrontOf;
    if events != [] {
      var e := events[0];
      assert WellWritten(e);
      EventBytesClean(e.raw, e.crlf);
      FirstWritten(EventBytes(e.raw, e.crlf), e.crlf, Body(events[1..], tail));
      CutWritten(events[1..], tail);
    }
  }

  /** The decoder reads this much as the lines of the event. */
  ghost predicate Reads(decode: Decoder, bytes: seq<byte>, e: Written) {
    WellWritten(e) && decode(bytes) == Some(EventText(e.lines, e.breaks))
  }

  lemma PayloadSaid(e: Written)
    requires WellWritten(e)
    ensures var p := Payload(EventText(e.lines, e.breaks)); (if p.Some? then [p.value] else []) == Said(e)
  {
    PayloadOfEvent(e.lines, e.breaks);
  }

  lemma {:induction false} PayloadsOfEvents(decode: Decoder, events: seq<Written>)
    requires forall i :: 0 <= i < |events| ==> Reads(decode, EventBytes(events[i].raw, events[i].crlf), events[i])
    ensures Payloads(decode, EachEvent(events)) == Success(AllSaid(events))
    ensures AllDecode(decode, EachEvent(events))
    decreases |events|
  {
    hide EventText, Payload, Join, EventBytes, Values, WellWritten;
    if events != [] {
      var e := events[0];
      assert Reads(decode, EventBytes(e.raw, e.crlf), e);
      PayloadSaid(e);
      PayloadsOfEvents(decode, events[1..]);
    }
  }

  lemma NothingWhole()
    ensures FrontOf([]) == Whole
  {
  }

  /** The bytes of an event that is not closed, with or without its line end. */
  function Tail(last: Option<Written>, ended: bool): seq<byte> {
    if last.None? then []
    else EventBytes(last.value.raw, last.value.crlf) + (if ended then LineEnd(last.value.crlf) else [])
  }

  lemma TailWhole(last: Option<Written>, ended: bool)
    requires last.Some? ==> WellWritten(last.value)
    ensures FrontOf(Tail(last, ended)) == Whole
    ensures last.Some? ==> Tail(last, ended) != [] && !OnlyBreaks(Tail(last, ended))
  {
    if last.Some? {
      EventBytesClean(last.value.raw, last.value.crlf);
      LastWritten(EventBytes(last.value.raw, last.value.crlf), if ended then LineEnd(last.value.crlf) else []);
    }
  }

  /** From any cut of a body of events closed by blank lines, of either kind, the
      appends give exactly what the events say, in order: the values of data lines
      with or without a space, and nothing for comments, other fields or events
      without data. An event that is not closed is given by the finish. */
  lemma WrittenPayloadsRecovered(decode: Decoder, events: seq<Written>, last: Option<Written>, ended: bool,
                                 chunks: seq<seq<byte>>)
    requires forall i :: 0 <= i < |events| ==> Reads(decode, EventBytes(events[i].raw, events[i].crlf), events[i])
    requires last.Some? ==> Reads(decode, Tail(last, ended), last.value)
    requires Concat(chunks) == Body(events, Tail(last, ended)) && Fits([], chunks)
    ensures AppendedAll(decode, [], chunks) == Parsed(Success(AllSaid(events)), Tail(last, ended))
    ensures Finished(decode, Tail(last, ended)) == Success(if last.None? then [] else Said(last.value))
  {
    hide FrontOf, CutAll, Payload, EventBytes, AllSaid, EachEvent, Body;
    var tail := Tail(last, ended);
    TailWhole(last, ended);
    CutWritten(events, tail);
    PayloadsOfEvents(decode, events);
    assert FrontOf([]) == Whole by { NothingWhole(); }
    assert [] + Concat(chunks) == Concat(chunks);
    ChunksCutAlike([], chunks);
    AppendedIsCut(decode, [], chunks);
    if last.Some? {
      PayloadSaid(last.value);
      assert [tail][1..] == [];
      assert Payloads(decode, []) == Success([]);
      assert Said(last.value) + [] == Said(last.value);
    }
  }
}
