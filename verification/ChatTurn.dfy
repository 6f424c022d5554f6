/** One chat turn as the app model runs it, with a stop arriving at any
    suspension point, and the history the next turn sends. */
module ChatTurn {
  import opened Prelude

  datatype Role = System | User | Assistant

  datatype Status = Pending | Streaming | Completed | Stopped | Interrupted | Failed

  datatype Message = Message(id: nat, role: Role, content: string, status: Status)

  datatype Phase = Idle | Routing(request: nat) | Receiving(request: nat) | Stopping(request: nat)

  predicate Terminal(s: Status) {
    s != Pending && s != Streaming
  }

  // ------------------------------------------------------- the environment

  /** A delta, and whether the user stops while it is awaited or being saved. */
  datatype Piece = Piece(text: string, stopBefore: bool, stopAfter: bool)

  /** How the provider's stream ends after its deltas. */
  datatype Ending = Completes | Ends | IsCancelled | Fails(message: string)

  datatype Stream = Stream(stopWhileSaving: bool, stopWhileOpening: bool, pieces: seq<Piece>,
                           ending: Ending, stopBeforeEnd: bool, stopWhileFinishing: bool)

  datatype Route = Unroutable(message: string) | Routed(stream: Stream)

  // ---------------------------------------------------------- the reference

  /** The stop that matters has arrived before the stream's end is handled. */
  predicate StoppedBy(s: Stream, k: nat)
    requires k <= |s.pieces|
  {
    || s.stopWhileOpening
    || (exists i :: 0 <= i < k && (s.pieces[i].stopBefore || s.pieces[i].stopAfter))
    || (k < |s.pieces| && s.pieces[k].stopBefore)
    || (k == |s.pieces| && s.stopBeforeEnd)
  }

  /** How many deltas are taken in before a stop, or all of them. */
  function Taken(s: Stream, from: nat := 0): (k: nat)
    requires from <= |s.pieces| && forall j: nat | j < from :: !StoppedBy(s, j)
    ensures from <= k <= |s.pieces|
    ensures k < |s.pieces| ==> StoppedBy(s, k)
    ensures forall j: nat | j < k :: !StoppedBy(s, j)
    decreases |s.pieces| - from
  {
    if from == |s.pieces| || StoppedBy(s, from) then from else Taken(s, from + 1)
  }

  function Texts(pieces: seq<Piece>): string {
    if pieces == [] then [] else Texts(pieces[..|pieces| - 1]) + pieces[|pieces| - 1].text
  }

  /** The one answer a turn leaves: its terminal status and its text. */
  function Answer(s: Stream): (Status, string) {
    if s.stopWhileSaving then (Stopped, [])
    else
      var k := Taken(s);
      var text := Texts(s.pieces[..k]);
      if k < |s.pieces| then (Stopped, text)
      else match s.ending
        case Fails(message) => (Failed, if text == [] then message else text)
        case Completes => (if StoppedBy(s, k) then Stopped else Completed, text)
        case Ends => (if StoppedBy(s, k) then Stopped else Interrupted, text)
        case IsCancelled => (if StoppedBy(s, k) then Stopped else Interrupted, text)
  }

  function AnswerTo(route: Route): (Status, string) {
    match route
    case Unroutable(message) => (Failed, message)
    case Routed(s) => Answer(s)
  }

  /** The messages a turn adds to the thread. */
  function TurnMessages(id: nat, prompt: string, route: Route): seq<Message> {
    var (status, text) := AnswerTo(route);
    [Message(id, User, prompt, Completed), Message(id + 1, Assistant, text, status)]
  }

  datatype Turn = Turn(prompt: string, route: Route)

  /** The thread after a run of turns, from an empty one. */
  function Thread(turns: seq<Turn>): seq<Message> {
    if turns == [] then []
    else
      var front := turns[..|turns| - 1];
      var t := turns[|turns| - 1];
      Thread(front) + TurnMessages(2 * |front|, t.prompt, t.route)
  }

  lemma NoThread()
    ensures Thread([]) == []
  {
  }

  lemma ThreadExtends(turns: seq<Turn>, k: nat)
    requires k < |turns|
    ensures Thread(turns[..k + 1]) == Thread(turns[..k]) + TurnMessages(2 * k, turns[k].prompt, turns[k].route)
  {
    assert turns[..k + 1][..k] == turns[..k];
  }

  // -------------------------------------------------------------- the model

  lemma StoppedAtOnce(s: Stream)
    requires s.stopWhileSaving
    ensures Answer(s) == (Stopped, [])
  {
  }

  /** The answer of a turn whose first save was not interrupted. */
  lemma AnswerAt(s: Stream)
    requires !s.stopWhileSaving
    ensures var k := Taken(s);
      var text := Texts(s.pieces[..k]);
      Answer(s) ==
        if k == |s.pieces| && s.ending.Fails? then (Failed, if text == [] then s.ending.message else text)
        else if k < |s.pieces| || StoppedBy(s, k) then (Stopped, text)
        else if s.ending.Completes? then (Completed, text) else (Interrupted, text)
  {
  }

  lemma TextsNone(pieces: seq<Piece>)
    ensures Texts(pieces[..0]) == []
  {
  }

  lemma TextsExtend(pieces: seq<Piece>, i: nat)
    requires i < |pieces|
    ensures Texts(pieces[..i + 1]) == Texts(pieces[..i]) + pieces[i].text
  {
    assert pieces[..i + 1][..i] == pieces[..i];
  }

  /** Each version's text extends the one before. */
  ghost predicate Growing(versions: seq<Message>) {
    forall i :: 0 <= i < |versions| - 1 ==> versions[i].content <= versions[i + 1].content
  }

  ghost predicate Open(versions: seq<Message>) {
    Growing(versions) && forall i :: 0 <= i < |versions| ==> !Terminal(versions[i].status)
  }

  /** A stop seen at piece i, and not before, fixes how many deltas are taken. */
  lemma TakenFrom(s: Stream, i: nat)
    requires i <= |s.pieces| && forall j: nat | j < i :: !StoppedBy(s, j)
    ensures i == |s.pieces| || StoppedBy(s, i) ==> Taken(s) == i
    ensures StoppedBy(s, i) <==>
      || s.stopWhileOpening
      || (i > 0 && s.pieces[i - 1].stopAfter)
      || (i < |s.pieces| && s.pieces[i].stopBefore)
      || (i == |s.pieces| && s.stopBeforeEnd)
  {
    assert i > 0 ==> !StoppedBy(s, i - 1);
  }

  class AppModel {
    var phase: Phase
    var messages: seq<Message>
    var nextId: nat
    var nextRequest: nat
    /** Every version of the current answer, as saved. */
    ghost var versions: seq<Message>

    ghost predicate Valid()
      reads this`messages, this`nextId
    {
      && (forall i, j :: 0 <= i < j < |messages| ==> messages[i].id != messages[j].id)
      && (forall i :: 0 <= i < |messages| ==> messages[i].id < nextId)
    }

    constructor ()
      ensures Valid() && phase == Idle && messages == [] && nextId == 0
    {
      phase, messages, nextId, nextRequest, versions := Idle, [], 0, 0, [];
    }

    method StopGenerating()
      modifies this`phase
      ensures phase == if old(phase).Idle? then Idle else Stopping(old(phase).request)
    {
      if phase.Idle? { return; }
      phase := Stopping(phase.request);
    }

    method StopIf(stop: bool)
      modifies this`phase
      ensures phase == if stop && !old(phase).Idle? then Stopping(old(phase).request) else old(phase)
    {
      if stop { StopGenerating(); }
    }

    /** The position of the message with this id, if there is one. */
    method IndexOf(id: nat) returns (k: nat)
      ensures k <= |messages| && (k < |messages| ==> messages[k].id == id)
      ensures forall i :: 0 <= i < k ==> messages[i].id != id
    {
      k := 0;
      while k < |messages| && messages[k].id != id
        invariant k <= |messages| && forall i :: 0 <= i < k ==> messages[i].id != id
      {
        k := k + 1;
      }
    }

    /** Rewrites one message and saves the thread. */
    method Replace(k: nat, message: Message)
      requires Valid() && k < |messages| && message.id == messages[k].id
      modifies this`messages, this`versions
      ensures Valid() && messages == old(messages)[k := message] && versions == old(versions) + [message]
    {
      messages := messages[k := message];
      versions := versions + [message];
    }

    /** The user's message and an empty, pending answer. */
    method BeginTurn(prompt: string) returns (answer: nat)
      requires Valid()
      modifies this`messages, this`nextId, this`versions
      ensures Valid() && answer == old(nextId) + 1 && nextId == old(nextId) + 2
      ensures versions == [Message(answer, Assistant, [], Pending)]
      ensures messages == old(messages) + [Message(old(nextId), User, prompt, Completed)] + versions
      ensures Holding(answer, [], old(messages) + [Message(old(nextId), User, prompt, Completed)])
    {
      answer := nextId + 1;
      var m := Message(answer, Assistant, [], Pending);
      messages := messages + [Message(nextId, User, prompt, Completed)] + [m];
      nextId := nextId + 2;
      versions := [m];
    }

    /** Both messages at once, the answer already failed. */
    method PersistFailedTurn(prompt: string, message: string)
      requires Valid()
      modifies this`messages, this`nextId, this`versions
      ensures Valid() && nextId == old(nextId) + 2
      ensures versions == [Message(old(nextId) + 1, Assistant, message, Failed)] && SettledOnce()
      ensures messages == old(messages) + [Message(old(nextId), User, prompt, Completed)] + versions
    {
      var m := Message(nextId + 1, Assistant, message, Failed);
      messages := messages + [Message(nextId, User, prompt, Completed)] + [m];
      nextId := nextId + 2;
      versions := [m];
    }

    ghost predicate Answering(id: nat, before: seq<Message>)
      reads this`messages, this`nextId, this`versions
    {
      && Valid() && |messages| == |before| + 1 && messages[..|before|] == before
      && messages[|before|].id == id && versions != [] && versions[|versions| - 1] == messages[|before|]
    }

    /** The answer so far is open, with this text. */
    ghost predicate Holding(id: nat, text: string, before: seq<Message>)
      reads this`messages, this`nextId, this`versions
    {
      && Answering(id, before) && Open(versions)
      && messages == before + [Message(id, Assistant, text, messages[|before|].status)]
    }

    lemma HoldingAnswers(id: nat, text: string, before: seq<Message>)
      requires Holding(id, text, before)
      ensures Answering(id, before) && Valid()
    {
    }

    method AppendDelta(delta: string, id: nat, ghost before: seq<Message>, ghost text: string)
      requires Answering(id, before)
      modifies this`messages, this`versions
      ensures Answering(id, before)
      ensures delta == [] ==> messages == old(messages) && versions == old(versions)
      ensures delta != [] ==>
        var m := old(messages)[|before|];
        messages == before + [m.(content := m.content + delta, status := Streaming)]
        && versions == old(versions) + [messages[|before|]]
      ensures old(Holding(id, text, before)) ==> Holding(id, text + delta, before)
    {
      assert text + [] == text;
      if delta == [] { return; }
      var k := IndexOf(id);
      assert k == |before|;
      var m := messages[k];
      Replace(k, m.(content := m.content + delta, status := Streaming));
    }

    /** A message that is already terminal keeps its status. */
    method FinishMessage(id: nat, status: Status, ghost before: seq<Message>, ghost text: string)
      requires Answering(id, before)
      modifies this`messages, this`versions
      ensures Answering(id, before) && Valid()
      ensures var m := old(messages)[|before|];
        if Terminal(m.status) then messages == old(messages) && versions == old(versions)
        else messages == before + [m.(status := status)] && versions == old(versions) + [messages[|before|]]
      ensures old(Holding(id, text, before)) && Terminal(status) ==>
        messages == before + [Message(id, Assistant, text, status)] && SettledOnce()
    {
      var k := IndexOf(id);
      assert k == |before|;
      var m := messages[k];
      if m.status != Pending && m.status != Streaming { return; }
      Replace(k, m.(status := status));
    }

    method FailMessage(id: nat, message: string, ghost before: seq<Message>, ghost text: string)
      requires Answering(id, before)
      modifies this`messages, this`versions
      ensures Answering(id, before) && Valid()
      ensures var m := old(messages)[|before|];
        && messages == before + [m.(content := if m.content == [] then message else m.content, status := Failed)]
        && versions == old(versions) + [messages[|before|]]
      ensures old(Holding(id, text, before)) ==>
        messages == before + [Message(id, Assistant, if text == [] then message else text, Failed)] && SettledOnce()
    {
      var k := IndexOf(id);
      assert k == |before|;
      var m := messages[k];
      Replace(k, m.(content := if m.content == [] then message else m.content, status := Failed));
    }

    /** The versions of an answer: open ones whose text only grows, then one
        terminal version, which is the last. */
    ghost predicate SettledOnce()
      reads this`versions
    {
      && versions != [] && Terminal(versions[|versions| - 1].status)
      && (forall i :: 0 <= i < |versions| - 1 ==> !Terminal(versions[i].status))
      && Growing(versions[..|versions| - 1])
    }

/** Takes deltas in until a stop is seen or they run out. */
    method TakePieces(s: Stream, id: nat, request: nat, ghost before: seq<Message>) returns (i: nat)
      requires Holding(id, [], before)
      requires phase == if s.stopWhileOpening then Stopping(request) else Receiving(request)
      modifies this`phase, this`messages, this`versions
      ensures i <= |s.pieces| && i == Taken(s) && Holding(id, Texts(s.pieces[..i]), before)
      ensures phase == Receiving(request) || phase == Stopping(request)
      ensures i < |s.pieces| ==> phase == Stopping(request)
      ensures i == |s.pieces| ==> (phase == Stopping(request) || s.stopBeforeEnd <==> StoppedBy(s, i))
    {
      hide Taken, StoppedBy, Texts, Holding, Answering;
      TextsNone(s.pieces);
      i := 0;
      while i < |s.pieces|
        invariant i <= |s.pieces| && Holding(id, Texts(s.pieces[..i]), before)
        invariant forall j: nat | j < i :: !StoppedBy(s, j)
        invariant phase == if s.stopWhileOpening || (i > 0 && s.pieces[i - 1].stopAfter)
                           then Stopping(request) else Receiving(request)
      {
        TakenFrom(s, i);
        StopIf(s.pieces[i].stopBefore);
        if phase != Receiving(request) { return; }
        HoldingAnswers(id, Texts(s.pieces[..i]), before);
        AppendDelta(s.pieces[i].text, id, before, Texts(s.pieces[..i]));
        TextsExtend(s.pieces, i);
        StopIf(s.pieces[i].stopAfter);
        i := i + 1;
      }
      TakenFrom(s, i);
    }

    /** The loop over the provider's events and what follows it. */
    method Receive(s: Stream, id: nat, request: nat, ghost before: seq<Message>)
      requires Holding(id, [], before) && !s.stopWhileSaving
      requires phase == if s.stopWhileOpening then Stopping(request) else Receiving(request)
      modifies this`phase, this`messages, this`versions
      ensures Valid() && !phase.Idle? && phase.request == request
      ensures messages == before + [Message(id, Assistant, Answer(s).1, Answer(s).0)] && SettledOnce()
    {
      hide Taken, StoppedBy, Texts, Answer, Holding, Answering, SettledOnce, Valid;
      var i := TakePieces(s, id, request, before);
      HoldingAnswers(id, Texts(s.pieces[..i]), before);
      if i == |s.pieces| { StopIf(s.stopBeforeEnd); }
      AnswerAt(s);
      if i == |s.pieces| && s.ending.Fails? {
        FailMessage(id, s.ending.message, before, Texts(s.pieces[..i]));
      } else {
        var completed := i == |s.pieces| && s.ending.Completes? && phase == Receiving(request);
        var status := if completed then Completed else if phase == Stopping(request) then Stopped else Interrupted;
        FinishMessage(id, status, before, Texts(s.pieces[..i]));
      }
      StopIf(s.stopWhileFinishing);
    }

    /** Sends one prompt. Whatever the provider does and wherever the user stops,
        the thread gains the user's message and one answer with exactly one
        terminal status, and the model is idle again. */
    method SendMessage(prompt: string, route: Route)
      requires Valid()
      modifies this
      ensures Valid()
      ensures old(phase) != Idle || prompt == [] ==> phase == old(phase) && messages == old(messages)
      ensures old(phase) == Idle && prompt != [] ==>
        phase == Idle && messages == old(messages) + TurnMessages(old(nextId), prompt, route) && SettledOnce()
      ensures old(phase) == Idle && prompt != [] ==> nextId == old(nextId) + 2
    {
      hide Answer, Holding, Answering, SettledOnce, Valid;
      if phase != Idle || prompt == [] { return; }
      var request := nextRequest;
      nextRequest := nextRequest + 1;
      phase := Routing(request);
      if route.Unroutable? {
        PersistFailedTurn(prompt, route.message);
        phase := Idle;
        return;
      }
      var s := route.stream;
      ghost var before := messages + [Message(nextId, User, prompt, Completed)];
      var id := BeginTurn(prompt);
      StopIf(s.stopWhileSaving);
      if phase == Stopping(request) {
        HoldingAnswers(id, [], before);
        FinishMessage(id, Stopped, before, []);
        StoppedAtOnce(s);
        phase := Idle;
        return;
      }
      phase := Receiving(request);
      StopIf(s.stopWhileOpening);
      Receive(s, id, request, before);
      if phase != Idle && phase.request == request { phase := Idle; }
    }

    /** One prompt after the other, from an empty thread. */
    method Converse(turns: seq<Turn>)
      requires Valid() && phase == Idle && messages == [] && nextId == 0
      requires forall t <- turns :: t.prompt != []
      modifies this
      ensures Valid() && phase == Idle && messages == Thread(turns)
    {
      hide Thread, TurnMessages, SettledOnce;
      assert Thread(turns[..0]) == [] by { NoThread(); }
      for i := 0 to |turns|
        invariant Valid() && phase == Idle && messages == Thread(turns[..i]) && nextId == 2 * i
      {
        ThreadExtends(turns, i);
        SendMessage(turns[i].prompt, turns[i].route);
      }
      assert turns[..|turns|] == turns;
    }
  }

  // ------------------------------------------------------- what it all means

  predicate AnyStop(s: Stream) {
    s.stopWhileSaving || StoppedBy(s, |s.pieces|)
  }

  lemma LaterStops(s: Stream, k: nat)
    requires k <= |s.pieces| && StoppedBy(s, k)
    ensures StoppedBy(s, |s.pieces|)
  {
  }

  /** What a turn's answer says: it is terminal; its text is the deltas up to
      some point, all of them unless stopped, or the failure text when nothing
      had arrived; and it is completed exactly when the provider completed and
      no stop came before that. */
  lemma AnswerMeaning(s: Stream)
    ensures var (status, text) := Answer(s);
      && Terminal(status)
      && ((exists k :: 0 <= k <= |s.pieces| && text == Texts(s.pieces[..k]))
          || (status == Failed && Texts(s.pieces) == [] && text == s.ending.message))
      && (status == Completed <==> s.ending == Completes && !AnyStop(s))
      && (status == Failed <==> s.ending.Fails? && !s.stopWhileSaving && Taken(s) == |s.pieces|)
      && (status == Interrupted <==> (s.ending == Ends || s.ending == IsCancelled) && !AnyStop(s))
      && (status == Completed || status == Interrupted ==> text == Texts(s.pieces))
      && (status == Failed ==> text == if Texts(s.pieces) == [] then s.ending.message else Texts(s.pieces))
      && (status == Stopped ==> AnyStop(s))
      && (status == Stopped && !s.stopWhileSaving ==> exists k: nat ::
            && k <= |s.pieces| && StoppedBy(s, k) && (forall j: nat | j < k :: !StoppedBy(s, j))
            && text == Texts(s.pieces[..k]))
      && (s.stopWhileSaving ==> (status, text) == (Stopped, []))
  {
    assert s.pieces[..|s.pieces|] == s.pieces && s.pieces[..0] == [];
    if !s.stopWhileSaving {
      var k := Taken(s);
      assert Texts(s.pieces[..k]) == Texts(s.pieces[..k]);
      if StoppedBy(s, k) { LaterStops(s, k); }
    } else {
      assert Answer(s).1 == Texts(s.pieces[..0]);
    }
  }

  // ---------------------------------------------------------------- history

  datatype Entry = Entry(role: Role, content: string)

  function KeptOf(m: Message, pendingUser: Option<Message>): seq<Entry> {
    match m.role
    case System => if m.status == Completed then [Entry(System, m.content)] else []
    case User => []
    case Assistant =>
      if m.status == Completed && pendingUser.Some? && pendingUser.value.status == Completed
      then [Entry(User, pendingUser.value.content), Entry(Assistant, m.content)] else []
  }

  function PendingStep(m: Message, pendingUser: Option<Message>): Option<Message> {
    match m.role
    case System => pendingUser
    case User => Some(m)
    case Assistant => None
  }

  /** The entries kept from messages, given the user message still unanswered. */
  function Kept(messages: seq<Message>, pendingUser: Option<Message>): seq<Entry> {
    if messages == [] then []
    else KeptOf(messages[0], pendingUser) + Kept(messages[1..], PendingStep(messages[0], pendingUser))
  }

  function PendingAfter(messages: seq<Message>, pendingUser: Option<Message>): Option<Message> {
    if messages == [] then pendingUser
    else PendingAfter(messages[1..], PendingStep(messages[0], pendingUser))
  }

  lemma {:induction false} KeptAppend(a: seq<Message>, b: seq<Message>, p: Option<Message>)
    ensures Kept(a + b, p) == Kept(a, p) + Kept(b, PendingAfter(a, p))
    ensures PendingAfter(a + b, p) == PendingAfter(b, PendingAfter(a, p))
    decreases |a|
  {
    hide KeptOf, PendingStep;
    if a == [] {
      assert a + b == b;
    } else {
      assert (a + b)[1..] == a[1..] + b;
      KeptAppend(a[1..], b, PendingStep(a[0], p));
    }
  }

  lemma KeptOne(m: Message, p: Option<Message>)
    ensures PendingAfter([m], p) == PendingStep(m, p) && Kept([m], p) == KeptOf(m, p)
  {
    assert [m][1..] == [];
  }

  method ProviderHistory(messages: seq<Message>, prompt: string) returns (history: seq<Entry>)
    ensures history == Kept(messages, None) + [Entry(User, prompt)]
  {
    history := [];
    var pendingUser: Option<Message> := None;
    assert messages[..0] == [];
    for i := 0 to |messages|
      invariant history == Kept(messages[..i], None) && pendingUser == PendingAfter(messages[..i], None)
    {
      var m := messages[i];
      assert messages[..i + 1] == messages[..i] + [m];
      KeptAppend(messages[..i], [m], None);
      KeptOne(m, pendingUser);
      match m.role
      case System =>
        if m.status == Completed { history := history + [Entry(System, m.content)]; }
      case User =>
        pendingUser := Some(m);
      case Assistant =>
        if m.status == Completed && pendingUser.Some? && pendingUser.value.status == Completed {
          history := history + [Entry(User, pendingUser.value.content)];
          history := history + [Entry(Assistant, m.content)];
        }
        pendingUser := None;
    }
    assert messages[..|messages|] == messages;
    history := history + [Entry(User, prompt)];
  }

  /** The prompt and answer of every completed turn, in order. */
  function CompletedPairs(turns: seq<Turn>): seq<Entry> {
    if turns == [] then []
    else
      var t := turns[|turns| - 1];
      var (status, text) := AnswerTo(t.route);
      CompletedPairs(turns[..|turns| - 1])
        + (if status == Completed then [Entry(User, t.prompt), Entry(Assistant, text)] else [])
  }

  /** One turn on its own gives its pair when it completed, and nothing else. */
  lemma TurnKept(id: nat, prompt: string, route: Route)
    ensures var ms := TurnMessages(id, prompt, route);
      && PendingAfter(ms, None) == None
      && Kept(ms, None) == if AnswerTo(route).0 == Completed
                           then [Entry(User, prompt), Entry(Assistant, AnswerTo(route).1)] else []
  {
    hide AnswerTo, Kept, PendingAfter;
    var ms := TurnMessages(id, prompt, route);
    assert ms == [ms[0]] + [ms[1]];
    KeptAppend([ms[0]], [ms[1]], None);
    KeptOne(ms[0], None);
    KeptOne(ms[1], Some(ms[0]));
  }

  lemma NothingKept()
    ensures Kept([], None) == [] && PendingAfter([], None) == None
  {
  }

  /** After any run of turns with any outcomes, what is sent next is exactly the
      prompts and answers of the completed turns, pair by pair in order; failed,
      stopped and interrupted turns contribute nothing. */
  lemma {:induction false} HistoryIsCompletedPairs(turns: seq<Turn>)
    ensures Kept(Thread(turns), None) == CompletedPairs(turns)
    ensures PendingAfter(Thread(turns), None) == None
  {
    hide AnswerTo, Kept, PendingAfter, TurnMessages;
    if turns == [] {
      NothingKept();
    } else {
      var front, t := turns[..|turns| - 1], turns[|turns| - 1];
      HistoryIsCompletedPairs(front);
      KeptAppend(Thread(front), TurnMessages(2 * |front|, t.prompt, t.route), None);
      TurnKept(2 * |front|, t.prompt, t.route);
    }
  }

  /** A prompt that cannot be routed is answered with the failure in words and
      adds nothing to what is sent later. */
  lemma UnroutableFails(id: nat, prompt: string, message: string, turns: seq<Turn>)
    ensures TurnMessages(id, prompt, Unroutable(message))
         == [Message(id, User, prompt, Completed), Message(id + 1, Assistant, message, Failed)]
    ensures Kept(Thread(turns + [Turn(prompt, Unroutable(message))]), None) == Kept(Thread(turns), None)
  {
    var all := turns + [Turn(prompt, Unroutable(message))];
    assert all[..|all| - 1] == turns;
    HistoryIsCompletedPairs(turns);
    HistoryIsCompletedPairs(all);
  }

  /** Any thread: notes of the system, prompts without an answer, and answered
      prompts, each with any status. */
  datatype Item =
    | Note(id: nat, text: string, status: Status)
    | Unanswered(id: nat, text: string, status: Status)
    | Answered(id: nat, prompt: string, promptStatus: Status, text: string, status: Status)

  function ItemMessages(item: Item): seq<Message> {
    match item
    case Note(id, text, status) => [Message(id, System, text, status)]
    case Unanswered(id, text, status) => [Message(id, User, text, status)]
    case Answered(id, prompt, promptStatus, text, status) =>
      [Message(id, User, prompt, promptStatus), Message(id + 1, Assistant, text, status)]
  }

  function ItemEntries(item: Item): seq<Entry> {
    match item
    case Note(_, text, status) => if status == Completed then [Entry(System, text)] else []
    case Unanswered(_, _, _) => []
    case Answered(_, prompt, promptStatus, text, status) =>
      if promptStatus == Completed && status == Completed then [Entry(User, prompt), Entry(Assistant, text)] else []
  }

  function AllMessages(items: seq<Item>): seq<Message> {
    if items == [] then [] else ItemMessages(items[0]) + AllMessages(items[1..])
  }

  function AllEntries(items: seq<Item>): seq<Entry> {
    if items == [] then [] else ItemEntries(items[0]) + AllEntries(items[1..])
  }

  lemma NothingKeptAfter(pendingUser: Option<Message>)
    ensures Kept([], pendingUser) == []
  {
  }

  lemma ItemKept(item: Item, pendingUser: Option<Message>)
    ensures Kept(ItemMessages(item), pendingUser) == ItemEntries(item)
  {
    hide Kept, PendingAfter;
    var ms := ItemMessages(item);
    KeptOne(ms[0], pendingUser);
    if item.Answered? {
      assert ms == [ms[0]] + [ms[1]];
      KeptAppend([ms[0]], [ms[1]], pendingUser);
      KeptOne(ms[1], Some(ms[0]));
    } else {
      assert ms == [ms[0]];
    }
  }

  /** Of any thread the history keeps, in order, the completed notes and the
      answered prompts whose prompt and answer are both completed. */
  lemma {:induction false} HistoryOfAnyThread(items: seq<Item>, pendingUser: Option<Message>)
    ensures Kept(AllMessages(items), pendingUser) == AllEntries(items)
    decreases |items|
  {
    hide Kept, PendingAfter;
    if items == [] {
      NothingKept();
      NothingKeptAfter(pendingUser);
    } else {
      var ms := ItemMessages(items[0]);
      ItemKept(items[0], pendingUser);
      KeptAppend(ms, AllMessages(items[1..]), pendingUser);
      HistoryOfAnyThread(items[1..], PendingAfter(ms, pendingUser));
    }
  }

  /** What the next request sends after a run of turns on a new thread. */
  method HistoryAfter(turns: seq<Turn>, prompt: string) returns (history: seq<Entry>)
    requires forall t <- turns :: t.prompt != []
    ensures history == CompletedPairs(turns) + [Entry(User, prompt)]
  {
    var model := new AppModel();
    model.Converse(turns);
    history := ProviderHistory(model.messages, prompt);
    HistoryIsCompletedPairs(turns);
  }
}
