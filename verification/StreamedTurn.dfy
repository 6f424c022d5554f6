/** From the bytes of a streamed response to the answer the turn keeps. */
module StreamedTurn {
  import opened Prelude
  import SSE = ServerSentEvents
  import Provider = ProviderStream
  import Turn = ChatTurn

  /** How the turn words an error of the provider. */
  type Wording = SSE.Error -> string

  function DeltaTexts(events: seq<Provider.Emitted>): seq<string> {
    if events == [] then []
    else (if events[0].Delta? then [events[0].text] else []) + DeltaTexts(events[1..])
  }

  /** How the provider's stream ends for the turn that reads it; a cancelled one
      just ends. */
  function EndingOf(end: Provider.Ending, wording: Wording): Turn.Ending {
    match end
    case Reached => Turn.Completes
    case Refused(e) => if e == SSE.Cancelled then Turn.Ends else Turn.Fails(wording(e))
    case Open => Turn.Ends
  }

  /** The turn's stream brings what the provider emitted, with stops anywhere. */
  ghost predicate Carries(s: Turn.Stream, x: Provider.Execution, wording: Wording) {
    && s.ending == EndingOf(x.end, wording)
    && |s.pieces| == |DeltaTexts(x.events)|
    && forall i :: 0 <= i < |s.pieces| ==> s.pieces[i].text == DeltaTexts(x.events)[i]
  }

  /** All content of the payloads, in order. */
  function Content(read: Provider.Reader, payloads: seq<SSE.Text>): string {
    if payloads == [] then []
    else (if read(payloads[0]).Deltas? then Concat(read(payloads[0]).contents) else []) + Content(read, payloads[1..])
  }

  lemma {:induction false} DeltaTextsAppend(a: seq<Provider.Emitted>, b: seq<Provider.Emitted>)
    ensures DeltaTexts(a + b) == DeltaTexts(a) + DeltaTexts(b)
  {
    if a == [] {
      assert a + b == b;
    } else {
      assert (a + b)[1..] == a[1..] + b;
      DeltaTextsAppend(a[1..], b);
    }
  }

  lemma {:induction false} NonEmptyContent(contents: seq<string>)
    ensures Concat(DeltaTexts(Provider.NonEmpty(contents))) == Concat(contents)
  {
    if contents != [] {
      NonEmptyContent(contents[1..]);
      var rest := Provider.NonEmpty(contents[1..]);
      if contents[0] == [] {
        assert [] + rest == rest;
      } else {
        var x := Provider.Delta(contents[0]);
        assert ([x] + rest)[1..] == rest;
        assert ([contents[0]] + DeltaTexts(rest))[1..] == DeltaTexts(rest);
      }
    }
  }

  lemma {:induction false} DeltasContent(read: Provider.Reader, payloads: seq<SSE.Text>)
    ensures Concat(DeltaTexts(Provider.DeltasOf(read, payloads))) == Content(read, payloads)
  {
    hide Provider.NonEmpty;
    if payloads != [] {
      var head := if read(payloads[0]).Deltas? then Provider.NonEmpty(read(payloads[0]).contents) else [];
      var rest := Provider.DeltasOf(read, payloads[1..]);
      DeltasContent(read, payloads[1..]);
      DeltaTextsAppend(head, rest);
      ConcatAppend(DeltaTexts(head), DeltaTexts(rest));
      if read(payloads[0]).Deltas? { NonEmptyContent(read(payloads[0]).contents); }
    }
  }

  lemma {:induction false} TextsAreConcat(pieces: seq<Turn.Piece>, texts: seq<string>)
    requires |pieces| == |texts| && forall i :: 0 <= i < |pieces| ==> pieces[i].text == texts[i]
    ensures Turn.Texts(pieces) == Concat(texts)
    decreases |pieces|
  {
    if pieces != [] {
      var n := |pieces| - 1;
      TextsAreConcat(pieces[..n], texts[..n]);
      ConcatAppend(texts[..n], [texts[n]]);
      assert texts == texts[..n] + [texts[n]];
      assert Concat([texts[n]]) == texts[n] by { assert [texts[n]][1..] == []; }
    }
  }

  /** The body in these chunks, within the limits, brings these payloads. */
  ghost predicate Brings(decode: SSE.Decoder, chunks: seq<seq<byte>>, fault: Option<SSE.Error>, payloads: seq<SSE.Text>) {
    && SSE.Fits([], chunks) && |Concat(chunks)| <= SSE.MAXIMUM_RESPONSE_BYTES
    && Provider.Carried(decode, Concat(chunks), fault, payloads)
  }

  lemma BroughtExecuted(decode: SSE.Decoder, read: Provider.Reader, chunks: seq<seq<byte>>, fault: Option<SSE.Error>,
                        payloads: seq<SSE.Text>)
    requires Brings(decode, chunks, fault, payloads)
    ensures Provider.ExecutedChunks(decode, read, [], 0, chunks, fault)
         == Provider.Closed(Provider.Consumed(read, payloads), fault)
  {
    hide Provider.ExecutedChunks, Provider.ExecutedBody, Provider.Consumed;
    Provider.ExecutionSplitIndependence(decode, read, chunks, fault);
    Provider.BodyConsumed(decode, read, Concat(chunks), fault, payloads);
  }

  lemma CarriedText(s: Turn.Stream, x: Provider.Execution, wording: Wording)
    requires Carries(s, x, wording)
    ensures Turn.Texts(s.pieces) == Concat(DeltaTexts(x.events))
  {
    TextsAreConcat(s.pieces, DeltaTexts(x.events));
  }

  lemma OnlyCompletion()
    ensures DeltaTexts([Provider.Emitted.Completed]) == []
  {
    assert [Provider.Emitted.Completed][1..] == [];
  }

  /** A body with a marker after readable payloads, not stopped, is answered
      `Completed` with exactly the content before the marker, however the body
      was cut into chunks and whatever follows the marker. */
  lemma MarkedBodyCompletes(decode: SSE.Decoder, read: Provider.Reader, wording: Wording, chunks: seq<seq<byte>>,
                            fault: Option<SSE.Error>, before: seq<SSE.Text>, after: seq<SSE.Text>, s: Turn.Stream)
    requires Brings(decode, chunks, fault, before + [Provider.DONE] + after) && Provider.Readable(read, before)
    requires Carries(s, Provider.ExecutedChunks(decode, read, [], 0, chunks, fault), wording) && !Turn.AnyStop(s)
    ensures Turn.Answer(s) == (Turn.Completed, Content(read, before))
  {
    hide Provider.ExecutedChunks, Provider.Consumed, Provider.DeltasOf, DeltaTexts, Turn.Answer, SSE.Fits;
    var x := Provider.ExecutedChunks(decode, read, [], 0, chunks, fault);
    BroughtExecuted(decode, read, chunks, fault, before + [Provider.DONE] + after);
    Provider.MarkerCompletes(read, before, after);
    assert x == Provider.Execution(Provider.DeltasOf(read, before) + [Provider.Emitted.Completed], Provider.Reached);
    CarriedText(s, x, wording);
    DeltaTextsAppend(Provider.DeltasOf(read, before), [Provider.Emitted.Completed]);
    OnlyCompletion();
    assert DeltaTexts(x.events) == DeltaTexts(Provider.DeltasOf(read, before));
    DeltasContent(read, before);
    Turn.AnswerMeaning(s);
  }

  lemma NotStopped(s: Turn.Stream)
    requires !Turn.AnyStop(s)
    ensures Turn.Taken(s) == |s.pieces| && !s.stopWhileSaving
  {
    if Turn.Taken(s) < |s.pieces| { Turn.LaterStops(s, Turn.Taken(s)); }
  }

  /** A readable body without a marker, not stopped, is never answered
      `Completed`: the turn is interrupted when the provider was cancelled, and
      otherwise fails; either way it keeps the content if there was any. */
  lemma UnmarkedBodyFails(decode: SSE.Decoder, read: Provider.Reader, wording: Wording, chunks: seq<seq<byte>>,
                          fault: Option<SSE.Error>, payloads: seq<SSE.Text>, s: Turn.Stream)
    requires Brings(decode, chunks, fault, payloads) && Provider.Readable(read, payloads)
    requires Carries(s, Provider.ExecutedChunks(decode, read, [], 0, chunks, fault), wording) && !Turn.AnyStop(s)
    ensures var text := Content(read, payloads);
      var cause := if fault.Some? then fault.value else SSE.Interrupted;
      Turn.Answer(s) == if cause == SSE.Cancelled then (Turn.Interrupted, text)
                        else (Turn.Failed, if text == [] then wording(cause) else text)
  {
    hide Provider.ExecutedChunks, Provider.Consumed, Provider.DeltasOf, DeltaTexts, SSE.Fits;
    var x := Provider.ExecutedChunks(decode, read, [], 0, chunks, fault);
    BroughtExecuted(decode, read, chunks, fault, payloads);
    Provider.CompletionExactlyAtMarker(read, payloads, fault);
    var cause := if fault.Some? then fault.value else SSE.Interrupted;
    assert x == Provider.Execution(Provider.DeltasOf(read, payloads), Provider.Refused(cause));
    CarriedText(s, x, wording);
    DeltasContent(read, payloads);
    Turn.AnswerMeaning(s);
    NotStopped(s);
    assert s.pieces[..|s.pieces|] == s.pieces;
  }

  lemma {:induction false} TextsPrefix(pieces: seq<Turn.Piece>, j: nat)
    requires j <= |pieces|
    ensures Turn.Texts(pieces[..j]) <= Turn.Texts(pieces)
    decreases |pieces|
  {
    if j == |pieces| {
      assert pieces[..j] == pieces;
    } else {
      var n := |pieces| - 1;
      TextsPrefix(pieces[..n], j);
      assert pieces[..n][..j] == pieces[..j];
    }
  }

  lemma NoDeltas()
    ensures DeltaTexts([]) == [] && Concat<char>([]) == [] && DeltaTexts([Provider.Emitted.Completed]) == []
  {
    OnlyCompletion();
  }

  /** The emitted deltas are the content of some front of the payloads. */
  lemma {:induction false} Extent(read: Provider.Reader, payloads: seq<SSE.Text>) returns (k: nat)
    ensures k <= |payloads|
    ensures Concat(DeltaTexts(Provider.Consumed(read, payloads).events)) == Content(read, payloads[..k])
  {
    hide Provider.NonEmpty, DeltaTexts, Concat;
    if payloads != [] && payloads[0] != Provider.DONE && read(payloads[0]).Deltas? {
      var j := Extent(read, payloads[1..]);
      k := j + 1;
      var head, rest := Provider.NonEmpty(read(payloads[0]).contents), Provider.Consumed(read, payloads[1..]).events;
      DeltaTextsAppend(head, rest);
      ConcatAppend(DeltaTexts(head), DeltaTexts(rest));
      NonEmptyContent(read(payloads[0]).contents);
      assert payloads[..k][1..] == payloads[1..][..j];
    } else {
      k := 0;
      NoDeltas();
    }
  }

  /** With stops anywhere, whatever is kept of a provider's answer is the front
      of its content or the words of its error, and a turn that ends `Completed`
      kept all the content of a body with a marker. */
  lemma NothingInvented(decode: SSE.Decoder, read: Provider.Reader, wording: Wording, chunks: seq<seq<byte>>,
                        fault: Option<SSE.Error>, payloads: seq<SSE.Text>, s: Turn.Stream)
    requires Brings(decode, chunks, fault, payloads)
    requires Carries(s, Provider.ExecutedChunks(decode, read, [], 0, chunks, fault), wording)
    ensures var (status, text) := Turn.Answer(s);
      && (status == Turn.Completed ==> exists k ::
            0 <= k < |payloads| && payloads[k] == Provider.DONE && Provider.Readable(read, payloads[..k])
            && text == Content(read, payloads[..k]))
      && ((exists k :: 0 <= k <= |payloads| && text <= Content(read, payloads[..k]))
          || (status == Turn.Failed && text == s.ending.message))
  {
    hide Provider.ExecutedChunks, Provider.Consumed, Provider.DeltasOf, DeltaTexts, Turn.Answer, SSE.Fits;
    hide Content, Turn.Texts, SSE.BodyPayloads;
    var x := Provider.ExecutedChunks(decode, read, [], 0, chunks, fault);
    BroughtExecuted(decode, read, chunks, fault, payloads);
    CarriedText(s, x, wording);
    Turn.AnswerMeaning(s);
    var (status, text) := Turn.Answer(s);
    if status == Turn.Completed {
      assert x.end == Provider.Reached;
      var k := Provider.ReachedAt(read, payloads);
      assert payloads == payloads[..k] + [Provider.DONE] + payloads[k + 1..];
      MarkedBodyCompletes(decode, read, wording, chunks, fault, payloads[..k], payloads[k + 1..], s);
    }
    var k := Extent(read, payloads);
    if j: nat :| j <= |s.pieces| && text == Turn.Texts(s.pieces[..j]) {
      TextsPrefix(s.pieces, j);
      assert text <= Content(read, payloads[..k]);
    }
  }
}
