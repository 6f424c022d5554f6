/** The account controller for the authorization code flow with PKCE: an actor
    whose calls interleave at every await, over a shared credential store. */
module Authorization {
  import opened Prelude

  type AuthorizationId = nat
  type CallId = nat

  datatype Readiness = Checking | Authorizing | Ready | SignedOut | Failed

  /** A stored secret, known by where it came from. */
  datatype Credential = Initial | WrittenBy(call: CallId)

  /** Where a call is. Each wait on the store is in two parts: sent, and
      carried out (or refused) but not yet resumed. */
  datatype Call =
    | Exchanging(id: AuthorizationId)
    | Saving(id: AuthorizationId)
    | Saved(id: AuthorizationId, saved: bool)
    | Undoing(id: AuthorizationId)
    | Undone(id: AuthorizationId, deleted: bool)
    | SigningOut
    | SignedOff(deleted: bool)
    | Refreshing
    | RefreshRead(found: Option<bool>)
    | FinishedReady(id: AuthorizationId)
    | GaveUp(id: AuthorizationId)
    | LeftBehind(id: AuthorizationId)
    | Returned

  predicate InFlight(call: Call) {
    !call.FinishedReady? && !call.GaveUp? && !call.LeftBehind? && !call.Returned?
  }

  predicate IsCompletion(call: Call) {
    call.Exchanging? || call.Saving? || call.Saved? || call.Undoing? || call.Undone?
  }

  predicate IsRefresh(call: Call) {
    call.Refreshing? || call.RefreshRead?
  }

  // -------------------------------------- the stretches of code between awaits

  datatype Fields = Fields(pending: Option<AuthorizationId>, readiness: Readiness)

  /** How far a begin gets: refused before anything changes, a challenge, or a
      failure to build the challenge after the authorization became pending. */
  datatype Beginning = Misconfigured | Challenged | Unbuildable

  function Began(f: Fields, id: AuthorizationId, how: Beginning): Fields {
    if f.pending.Some? || how == Misconfigured then f else Fields(Some(id), Authorizing)
  }

  /** The error path shared by every failure of a completion. */
  function Failing(f: Fields, id: AuthorizationId): Fields {
    if f.pending == Some(id) then Fields(None, Failed) else f
  }

  function Cancelled(f: Fields, id: AuthorizationId): Fields {
    if f.pending == Some(id) then Fields(None, SignedOut) else f
  }

  /** Up to the token exchange: the callback must match and carry a code. */
  function Completing(f: Fields, id: AuthorizationId, codeFound: bool): (Fields, Call) {
    if f.pending == Some(id) && codeFound then (f, Exchanging(id)) else (Failing(f, id), GaveUp(id))
  }

  /** After the exchange: on to saving only while still pending. */
  function AfterExchange(f: Fields, id: AuthorizationId, exchanged: bool): (Fields, Call) {
    if exchanged && f.pending == Some(id) then (f, Saving(id)) else (Failing(f, id), GaveUp(id))
  }

  /** After the save: ready if still pending, otherwise the save is undone. */
  function AfterSave(f: Fields, id: AuthorizationId, saved: bool): (Fields, Call) {
    if !saved then (Failing(f, id), GaveUp(id))
    else if f.pending == Some(id) then (Fields(None, Ready), FinishedReady(id))
    else (f, Undoing(id))
  }

  function AfterUndo(f: Fields, id: AuthorizationId, deleted: bool): (Fields, Call) {
    (Failing(f, id), if deleted then GaveUp(id) else LeftBehind(id))
  }

  function AfterSignOut(f: Fields, deleted: bool): (Fields, Call) {
    (if deleted then f.(readiness := SignedOut) else f, Returned)
  }

  function AfterRefresh(f: Fields, found: Option<bool>): (Fields, Call) {
    (f.(readiness := if found.None? then Failed else if found.value then Ready else SignedOut), Returned)
  }

  /** A call whose await is answered runs on to its next await or its end. Calls
      that are not answered stay where they are. */
  function Continued(f: Fields, call: Call, exchanged: bool): (Fields, Call) {
    match call
    case Exchanging(id) => AfterExchange(f, id, exchanged)
    case Saved(id, saved) => AfterSave(f, id, saved)
    case Undone(id, deleted) => AfterUndo(f, id, deleted)
    case SignedOff(deleted) => AfterSignOut(f, deleted)
    case RefreshRead(found) => AfterRefresh(f, found)
    case _ => (f, call)
  }

  /** The controller, one method for each stretch. */
  class AuthorizationCodePKCEController {
    var pending: Option<AuthorizationId>
    var currentReadiness: Readiness

    constructor ()
      ensures Value() == Fields(None, Checking)
    {
      pending, currentReadiness := None, Checking;
    }

    ghost function Value(): Fields
      reads this
    {
      Fields(pending, currentReadiness)
    }

    method BeginAuthorization(id: AuthorizationId, how: Beginning) returns (challenged: bool)
      modifies this
      ensures Value() == Began(old(Value()), id, how)
      ensures challenged <==> old(pending).None? && how == Challenged
    {
      if pending.Some? { return false; }
      if how == Misconfigured { return false; }
      pending := Some(id);
      currentReadiness := Authorizing;
      return how == Challenged;
    }

    method Fail(id: AuthorizationId)
      modifies this
      ensures Value() == Failing(old(Value()), id)
    {
      if pending == Some(id) {
        pending := None;
        currentReadiness := Failed;
      }
    }

    method StartCompletion(id: AuthorizationId, codeFound: bool) returns (next: Call)
      modifies this
      ensures (Value(), next) == Completing(old(Value()), id, codeFound)
    {
      if pending != Some(id) { return GaveUp(id); }
      if !codeFound {
        Fail(id);
        return GaveUp(id);
      }
      return Exchanging(id);
    }

    method ExchangeReturned(id: AuthorizationId, exchanged: bool) returns (next: Call)
      modifies this
      ensures (Value(), next) == AfterExchange(old(Value()), id, exchanged)
    {
      if !exchanged || pending != Some(id) {
        Fail(id);
        return GaveUp(id);
      }
      return Saving(id);
    }

    method SaveReturned(id: AuthorizationId, saved: bool) returns (next: Call)
      modifies this
      ensures (Value(), next) == AfterSave(old(Value()), id, saved)
    {
      if !saved {
        Fail(id);
        return GaveUp(id);
      }
      if pending != Some(id) { return Undoing(id); }
      pending := None;
      currentReadiness := Ready;
      return FinishedReady(id);
    }

    /** A refused delete is passed over; the authorization is given up anyway. */
    method UndoReturned(id: AuthorizationId, deleted: bool) returns (next: Call)
      modifies this
      ensures (Value(), next) == AfterUndo(old(Value()), id, deleted)
    {
      Fail(id);
      next := if deleted then GaveUp(id) else LeftBehind(id);
    }

    method CancelAuthorization(id: AuthorizationId)
      modifies this
      ensures Value() == Cancelled(old(Value()), id)
    {
      if pending != Some(id) { return; }
      pending := None;
      currentReadiness := SignedOut;
    }

    method RefreshReturned(found: Option<bool>) returns (next: Call)
      modifies this
      ensures (Value(), next) == AfterRefresh(old(Value()), found)
    {
      currentReadiness := match found
        case None => Failed
        case Some(present) => if present then Ready else SignedOut;
      next := Returned;
    }

    method StartSignOut() returns (next: Call)
      modifies this
      ensures Value() == Fields(None, old(currentReadiness)) && next == SigningOut
    {
      pending := None;
      next := SigningOut;
    }

    method SignOutReturned(deleted: bool) returns (next: Call)
      modifies this
      ensures (Value(), next) == AfterSignOut(old(Value()), deleted)
    {
      if deleted { currentReadiness := SignedOut; }
      next := Returned;
    }

    /** Resumes a call at the stretch after its await. */
    method Continue(call: Call, exchanged: bool) returns (next: Call)
      modifies this
      ensures (Value(), next) == Continued(old(Value()), call, exchanged)
    {
      match call
      case Exchanging(id) => next := ExchangeReturned(id, exchanged);
      case Saved(id, saved) => next := SaveReturned(id, saved);
      case Undone(id, deleted) => next := UndoReturned(id, deleted);
      case SignedOff(deleted) => next := SignOutReturned(deleted);
      case RefreshRead(found) => next := RefreshReturned(found);
      case _ => next := call;
    }
  }

  // ------------------------------------------------------- interleaved calls

  datatype World = World(fields: Fields, store: Option<Credential>, nextAuthorization: nat, calls: seq<Call>)

  datatype Event =
    | Begin(how: Beginning)
    | Complete(id: AuthorizationId, codeFound: bool)
    | Cancel(id: AuthorizationId)
    | Refresh
    | SignOut
    | Store(call: CallId, succeeds: bool)
    | Resume(call: CallId, succeeds: bool)

  /** The store carries out, or refuses, what a waiting call asked of it. */
  function Stored(store: Option<Credential>, i: CallId, call: Call, ok: bool): (Option<Credential>, Call) {
    match call
    case Saving(id) => (if ok then Some(WrittenBy(i)) else store, Saved(id, ok))
    case Undoing(id) => (if ok then None else store, Undone(id, ok))
    case SigningOut => (if ok then None else store, SignedOff(ok))
    case Refreshing => (store, RefreshRead(if ok then Some(store.Some?) else None))
    case _ => (store, call)
  }

  function Opened(w: World, stretch: (Fields, Call)): World {
    w.(fields := stretch.0, calls := w.calls + [stretch.1])
  }

  function At(w: World, i: CallId, call: Call): World
    requires i < |w.calls|
  {
    w.(calls := w.calls[i := call])
  }

  /** One atomic event. Events for calls that are not waiting do nothing. */
  function Next(w: World, e: Event): World {
    match e
    case Begin(how) =>
      w.(fields := Began(w.fields, w.nextAuthorization, how), nextAuthorization := w.nextAuthorization + 1)
    case Complete(id, codeFound) => Opened(w, Completing(w.fields, id, codeFound))
    case Cancel(id) => w.(fields := Cancelled(w.fields, id))
    case Refresh => Opened(w, (w.fields, Refreshing))
    case SignOut => Opened(w, (Fields(None, w.fields.readiness), SigningOut))
    case Store(i, ok) =>
      if i >= |w.calls| then w
      else
        var (store, call) := Stored(w.store, i, w.calls[i], ok);
        At(w, i, call).(store := store)
    case Resume(i, ok) =>
      if i >= |w.calls| then w
      else
        var (fields, call) := Continued(w.fields, w.calls[i], ok);
        At(w, i, call).(fields := fields)
  }

  function Run(w: World, events: seq<Event>): World
    decreases |events|
  {
    if events == [] then w else Run(Next(w, events[0]), events[1..])
  }

  function Fresh(store: Option<Credential>): World {
    World(Fields(None, Checking), store, 0, [])
  }

  ghost predicate Quiet(w: World) {
    forall i :: 0 <= i < |w.calls| ==> !InFlight(w.calls[i])
  }

  /** The actor with its suspended calls and the store they share. Every event
      is one run of the controller's own code, or one answer of the store. */
  class Actor {
    const controller: AuthorizationCodePKCEController
    var store: Option<Credential>
    var nextAuthorization: nat
    var calls: seq<Call>

    constructor (store: Option<Credential>)
      ensures Value() == Fresh(store) && fresh(controller)
    {
      controller := new AuthorizationCodePKCEController();
      this.store, nextAuthorization, calls := store, 0, [];
    }

    ghost function Value(): World
      reads this, controller
    {
      World(controller.Value(), store, nextAuthorization, calls)
    }

    method Perform(e: Event)
      modifies this, controller
      ensures Value() == Next(old(Value()), e)
    {
      match e
      case Begin(how) =>
        var challenged := controller.BeginAuthorization(nextAuthorization, how);
        nextAuthorization := nextAuthorization + 1;
      case Complete(id, codeFound) =>
        var call := controller.StartCompletion(id, codeFound);
        calls := calls + [call];
      case Cancel(id) => controller.CancelAuthorization(id);
      case Refresh => calls := calls + [Refreshing];
      case SignOut =>
        var call := controller.StartSignOut();
        calls := calls + [call];
      case Store(i, ok) =>
        if i < |calls| {
          var (secret, call) := Stored(store, i, calls[i], ok);
          store, calls := secret, calls[i := call];
        }
      case Resume(i, ok) =>
        if i < |calls| {
          var call := controller.Continue(calls[i], ok);
          calls := calls[i := call];
        }
    }
  }

  // --------------------------------------------------- nothing is left behind

  function IdOf(c: Call): AuthorizationId {
    if c.SigningOut? || c.SignedOff? || c.Refreshing? || c.RefreshRead? || c.Returned? then 0 else c.id
  }

  /** The writer of a stored credential has finished ready, still has to look
      at its save or undo it, or failed to undo it. */
  ghost predicate Accounted(w: World) {
    match w.store
    case None => true
    case Some(Initial) => true
    case Some(WrittenBy(i)) =>
      && i < |w.calls|
      && var c := w.calls[i];
         c.FinishedReady? || c.LeftBehind? || c == Saved(IdOf(c), true) || c.Undoing?
         || c == Undone(IdOf(c), false)
  }

  lemma AccountedStep(w: World, e: Event)
    requires Accounted(w)
    ensures Accounted(Next(w, e))
    ensures Next(w, e).store == Some(Initial) ==> w.store == Some(Initial)
  {
  }

  lemma {:induction false} AccountedRun(w: World, events: seq<Event>)
    requires Accounted(w)
    ensures Accounted(Run(w, events))
    ensures Run(w, events).store == Some(Initial) ==> w.store == Some(Initial)
    decreases |events|
  {
    if events != [] {
      AccountedStep(w, events[0]);
      AccountedRun(Next(w, events[0]), events[1..]);
    }
  }

  /** In every interleaving, once no call is in flight, a stored credential is
      the one present at the start, or one written by a completion that finished
      ready, or one whose writer tried to delete it and was refused by the store.
      So a cancelled or superseded authorization leaves nothing behind when
      deletes succeed. */
  lemma NothingLeftBehind(store: Option<Credential>, events: seq<Event>)
    requires store.None? || store == Some(Initial)
    ensures var w := Run(Fresh(store), events);
      Quiet(w) && w.store.Some? ==>
        || w.store == store
        || (w.store.value.WrittenBy? && w.store.value.call < |w.calls|
            && (w.calls[w.store.value.call].FinishedReady? || w.calls[w.store.value.call].LeftBehind?))
  {
    AccountedRun(Fresh(store), events);
    var w := Run(Fresh(store), events);
    assert w.store.Some? && w.store.value.WrittenBy? && Quiet(w) ==> !InFlight(w.calls[w.store.value.call]);
  }

  /** The store answers a call that exists. */
  predicate Asks(w: World, e: Event) {
    e.Store? && e.call < |w.calls|
  }

  /** Every cleanup delete of the run is carried out by the store. */
  ghost predicate DeletesSucceed(w: World, events: seq<Event>)
    decreases |events|
  {
    events != [] ==>
      && (Asks(w, events[0]) && w.calls[events[0].call].Undoing? ==> events[0].succeeds)
      && DeletesSucceed(Next(w, events[0]), events[1..])
  }

  ghost predicate CleanedUp(w: World) {
    forall i :: 0 <= i < |w.calls| ==> !w.calls[i].LeftBehind? && (w.calls[i].Undone? ==> w.calls[i].deleted)
  }

  lemma CleanedUpStep(w: World, e: Event)
    requires CleanedUp(w) && (Asks(w, e) && w.calls[e.call].Undoing? ==> e.succeeds)
    ensures CleanedUp(Next(w, e))
  {
  }

  lemma {:induction false} CleanedUpRun(w: World, events: seq<Event>)
    requires CleanedUp(w) && DeletesSucceed(w, events)
    ensures CleanedUp(Run(w, events))
    decreases |events|
  {
    hide Next, CleanedUp;
    if events != [] {
      CleanedUpStep(w, events[0]);
      CleanedUpRun(Next(w, events[0]), events[1..]);
    }
  }

  /** With cleanup deletes that succeed, only the initial credential or one
      whose completion finished ready can be stored when all is quiet. */
  lemma StoredMeansInitialOrReady(store: Option<Credential>, events: seq<Event>)
    requires store.None? || store == Some(Initial)
    requires DeletesSucceed(Fresh(store), events) && Quiet(Run(Fresh(store), events))
    ensures var w := Run(Fresh(store), events);
      w.store.Some? ==>
        || w.store == store
        || (w.store.value.WrittenBy? && w.store.value.call < |w.calls|
            && w.calls[w.store.value.call].FinishedReady?)
  {
    NothingLeftBehind(store, events);
    CleanedUpRun(Fresh(store), events);
  }

  // ------------------------------------------------- ready means credential

  /** At most one completion at a time, and refresh on its own. */
  ghost predicate Orderly(w: World) {
    && (forall i, j :: 0 <= i < j < |w.calls| ==> !(IsCompletion(w.calls[i]) && IsCompletion(w.calls[j])))
    && (forall i, j :: 0 <= i < |w.calls| && 0 <= j < |w.calls| && i != j && IsRefresh(w.calls[i]) ==>
          !InFlight(w.calls[j]))
  }

  /** A sign-out whose delete the store has yet to answer. */
  ghost predicate SignOutOutstanding(w: World) {
    SigningOut in w.calls
  }

  /** A sign-out whose delete was carried out is about to report. */
  ghost predicate SignOutReporting(w: World) {
    SignedOff(true) in w.calls
  }

  /** A completion that may still delete what is stored, should it be orphaned. */
  predicate MayUndo(call: Call) {
    call.Saving? || (call.Saved? && call.saved) || call.Undoing?
  }

  /** The pending authorization has a completion past its exchange. */
  ghost predicate SaveUnderWay(w: World, i: CallId) {
    i < |w.calls| && MayUndo(w.calls[i]) && w.fields.pending == Some(w.calls[i].id)
  }

  /** The two calls that can end in `Ready` with nothing stored: a begin while a
      sign-out's delete is outstanding, and a sign-out while readiness is `Ready`
      and the pending authorization is being saved. */
  ghost predicate Harmful(w: World, e: Event) {
    || (e.Begin? && e.how != Misconfigured && w.fields.pending.None? && SignOutOutstanding(w))
    || (e.SignOut? && w.fields.readiness == Ready && !SignOutReporting(w) && exists i :: SaveUnderWay(w, i))
  }

  ghost predicate OrderlyRun(w: World, events: seq<Event>)
    decreases |events|
  {
    Orderly(w) && (events != [] ==> OrderlyRun(Next(w, events[0]), events[1..]))
  }

  ghost predicate HarmlessRun(w: World, events: seq<Event>)
    decreases |events|
  {
    events != [] ==> !Harmful(w, events[0]) && HarmlessRun(Next(w, events[0]), events[1..])
  }

  /** An orderly run without a harmful call. The store may answer as it likes. */
  ghost predicate CarefulRun(w: World, events: seq<Event>) {
    OrderlyRun(w, events) && HarmlessRun(w, events)
  }

  ghost predicate SoundCall(w: World, call: Call) {
    && (IsCompletion(call) ==> call.id < w.nextAuthorization)
    && (MayUndo(call) && w.fields.readiness == Ready && w.fields.pending != Some(call.id) ==> SignOutReporting(w))
    && (call.Saved? && call.saved && w.fields.pending == Some(call.id) ==> w.store.Some?)
    && (call.Undoing? || call.Undone? ==> w.fields.pending != Some(call.id))
    && (call == RefreshRead(Some(true)) ==> w.store.Some?)
  }

  ghost predicate Sound(w: World) {
    && (w.fields.pending.Some? ==> w.fields.pending.value < w.nextAuthorization && !SignOutOutstanding(w))
    && (w.fields.readiness == Ready && w.store.None? ==> SignOutReporting(w))
    && forall i :: 0 <= i < |w.calls| ==> SoundCall(w, w.calls[i])
  }

  /** An event that is the store's answer or the actor's resumption of a call. */
  predicate Settles(e: Event) {
    e.Store? || e.Resume?
  }

  lemma SoundCalled(w: World, e: Event)
    requires Orderly(w) && Sound(w) && Orderly(Next(w, e)) && !Harmful(w, e)
    requires !Settles(e)
    ensures Sound(Next(w, e))
  {
    var v := Next(w, e);
    assert forall i | 0 <= i < |w.calls| :: v.calls[i] == w.calls[i];
    assert SignOutReporting(w) ==> SignOutReporting(v);
    forall i | 0 <= i < |v.calls|
      ensures SoundCall(v, v.calls[i])
    {
      if i < |w.calls| {
        assert SoundCall(w, w.calls[i]);
        assert !SaveUnderWay(w, i) || !e.SignOut? || w.fields.readiness != Ready || SignOutReporting(w);
      }
    }
  }

  /** What moving one call does to the sign-outs outstanding and reporting. */
  lemma SignOutsAfter(w: World, v: World, i: CallId)
    requires i < |w.calls| == |v.calls| && v.calls == w.calls[i := v.calls[i]]
    ensures w.calls[i] == SigningOut ==> SignOutOutstanding(w)
    ensures v.calls[i] != SigningOut && SignOutOutstanding(v) ==> SignOutOutstanding(w)
    ensures v.calls[i] == SignedOff(true) ==> SignOutReporting(v)
    ensures w.calls[i] != SignedOff(true) && SignOutReporting(w) ==> SignOutReporting(v)
  {
    assert v.calls[i] in v.calls;
    if w.calls[i] != SignedOff(true) && SignOutReporting(w) {
      var k :| 0 <= k < |w.calls| && w.calls[k] == SignedOff(true);
      assert v.calls[k] == SignedOff(true);
    }
  }

  lemma SoundStored(w: World, i: CallId, ok: bool)
    requires Orderly(w) && Sound(w) && i < |w.calls|
    ensures Sound(Next(w, Store(i, ok)))
  {
    hide SignOutOutstanding, SignOutReporting;
    var v := Next(w, Store(i, ok));
    SignOutsAfter(w, v, i);
    assert SoundCall(w, w.calls[i]);
    forall k | 0 <= k < |v.calls|
      ensures SoundCall(v, v.calls[k])
    {
      assert SoundCall(w, w.calls[k]);
    }
  }

  lemma SoundResumed(w: World, i: CallId, ok: bool)
    requires Orderly(w) && Sound(w) && i < |w.calls|
    ensures Sound(Next(w, Resume(i, ok)))
  {
    hide SignOutOutstanding, SignOutReporting;
    var v := Next(w, Resume(i, ok));
    SignOutsAfter(w, v, i);
    assert SoundCall(w, w.calls[i]);
    forall k | 0 <= k < |v.calls|
      ensures SoundCall(v, v.calls[k])
    {
      assert SoundCall(w, w.calls[k]);
    }
  }

  lemma SoundStep(w: World, e: Event)
    requires Orderly(w) && Sound(w) && Orderly(Next(w, e)) && !Harmful(w, e)
    ensures Sound(Next(w, e))
  {
    hide Orderly, Sound, Harmful;
    if !Settles(e) {
      SoundCalled(w, e);
    } else if e.call < |w.calls| {
      if e.Store? { SoundStored(w, e.call, e.succeeds); } else { SoundResumed(w, e.call, e.succeeds); }
    }
  }

  lemma {:induction false} SoundRun(w: World, events: seq<Event>)
    requires CarefulRun(w, events) && Sound(w)
    ensures Sound(Run(w, events))
    decreases |events|
  {
    hide Next, Sound, Orderly, Harmful;
    if events != [] {
      assert OrderlyRun(Next(w, events[0]), events[1..]);
      SoundStep(w, events[0]);
      SoundRun(Next(w, events[0]), events[1..]);
    }
  }

  ghost predicate RestsUnbacked(w: World) {
    Quiet(w) && w.fields.readiness == Ready && w.store.None?
  }

  lemma SoundIsBacked(w: World)
    requires Sound(w)
    ensures !RestsUnbacked(w)
  {
  }

  /** In every interleaving of careful calls, whatever the store and the token
      endpoint answer, the actor never rests in `Ready` with nothing stored. */
  lemma ReadyMeansStored(store: Option<Credential>, events: seq<Event>)
    requires CarefulRun(Fresh(store), events)
    ensures !RestsUnbacked(Run(Fresh(store), events))
  {
    SoundRun(Fresh(store), events);
    SoundIsBacked(Run(Fresh(store), events));
  }

  /** What a caller can see to before a call: no begin while a sign-out has not
      returned, and no sign-out while readiness is `Ready` and a completion has
      not returned. */
  ghost predicate Prudent(w: World, e: Event) {
    && (e.Begin? ==> forall c <- w.calls :: c != SigningOut && !c.SignedOff?)
    && (e.SignOut? && w.fields.readiness == Ready ==> forall c <- w.calls :: !IsCompletion(c))
  }

  lemma PrudentIsHarmless(w: World, e: Event)
    requires Prudent(w, e)
    ensures !Harmful(w, e)
  {
    if i: CallId :| SaveUnderWay(w, i) {
      assert w.calls[i] in w.calls && IsCompletion(w.calls[i]);
    }
  }

  // --------------------------------------------- exactly the harmful calls harm

  lemma RunThree(w: World, a: Event, b: Event, c: Event)
    ensures Run(w, [a]) == Next(w, a)
    ensures Run(w, [a, b]) == Next(Next(w, a), b)
    ensures Run(w, [a, b, c]) == Next(Next(Next(w, a), b), c)
  {
    hide Next;
    assert [a][1..] == [] && [a, b][1..] == [b] && [a, b, c][1..] == [b, c] && [b][1..] == [] && [b, c][1..] == [c];
    assert Run(w, [a]) == Run(Next(w, a), []);
    assert Run(Next(w, a), [b]) == Run(Next(Next(w, a), b), []);
    assert Run(Next(w, a), [b, c]) == Run(Next(Next(w, a), b), [c]) == Run(Next(Next(Next(w, a), b), c), []);
  }

  lemma CarefulThree(w: World, a: Event, b: Event, c: Event)
    ensures var w1 := Next(w, a);
      var w2 := Next(w1, b);
      var w3 := Next(w2, c);
      && (Orderly(w) && Orderly(w1) ==> OrderlyRun(w, [a]))
      && (Orderly(w) && Orderly(w1) && Orderly(w2) && Orderly(w3) ==> OrderlyRun(w, [a, b, c]))
      && (!Harmful(w, a) ==> HarmlessRun(w, [a]))
      && (!Harmful(w, a) && !Harmful(w1, b) && !Harmful(w2, c) ==> HarmlessRun(w, [a, b, c]))
  {
    hide Next, Orderly, Harmful;
    var w1 := Next(w, a);
    var w2 := Next(w1, b);
    var w3 := Next(w2, c);
    assert [a][1..] == [] && [a, b, c][1..] == [b, c] && [b, c][1..] == [c] && [c][1..] == [];
    assert Orderly(w3) ==> OrderlyRun(w3, []);
    assert Orderly(w2) && Orderly(w3) ==> OrderlyRun(w2, [c]);
    assert HarmlessRun(w3, []);
    assert !Harmful(w2, c) ==> HarmlessRun(w2, [c]);
  }

  lemma {:induction false} RunAppend(w: World, a: seq<Event>, b: seq<Event>)
    ensures Run(w, a + b) == Run(Run(w, a), b)
    decreases |a|
  {
    hide Next;
    if a == [] {
      assert a + b == b;
    } else {
      assert (a + b)[1..] == a[1..] + b;
      RunAppend(Next(w, a[0]), a[1..], b);
    }
  }

  lemma {:induction false} OrderlyAppend(w: World, a: seq<Event>, b: seq<Event>)
    requires OrderlyRun(w, a) && OrderlyRun(Run(w, a), b)
    ensures OrderlyRun(w, a + b)
    decreases |a|
  {
    hide Next, Orderly;
    if a == [] {
      assert a + b == b;
    } else {
      assert (a + b)[1..] == a[1..] + b;
      OrderlyAppend(Next(w, a[0]), a[1..], b);
    }
  }

  lemma {:induction false} HarmlessAppend(w: World, a: seq<Event>, b: seq<Event>)
    requires HarmlessRun(w, a) && HarmlessRun(Run(w, a), b)
    ensures HarmlessRun(w, a + b)
    decreases |a|
  {
    hide Next, Harmful;
    if a == [] {
      assert a + b == b;
    } else {
      assert (a + b)[1..] == a[1..] + b;
      HarmlessAppend(Next(w, a[0]), a[1..], b);
    }
  }

  lemma CarefulAppend(w: World, a: seq<Event>, b: seq<Event>)
    requires CarefulRun(w, a) && CarefulRun(Run(w, a), b)
    ensures CarefulRun(w, a + b)
  {
    OrderlyAppend(w, a, b);
    HarmlessAppend(w, a, b);
  }

  /** Store answers and resumptions never make a run disorderly. */
  lemma SettlesOrderly(w: World, e: Event)
    requires Orderly(w) && Settles(e)
    ensures Orderly(Next(w, e))
  {
    if e.call < |w.calls| {
      var v := Next(w, e);
      assert forall k | 0 <= k < |v.calls| :: k != e.call ==> v.calls[k] == w.calls[k];
      var c, d := w.calls[e.call], v.calls[e.call];
      assert IsCompletion(d) ==> IsCompletion(c);
      assert IsRefresh(d) ==> IsRefresh(c);
      assert InFlight(d) ==> InFlight(c);
    }
  }

  lemma {:induction false} SettlingIsCareful(w: World, events: seq<Event>)
    requires forall e <- events :: Settles(e)
    ensures HarmlessRun(w, events)
    ensures Orderly(w) ==> OrderlyRun(w, events)
    decreases |events|
  {
    hide Next, Orderly;
    if events != [] {
      if Orderly(w) { SettlesOrderly(w, events[0]); }
      SettlingIsCareful(Next(w, events[0]), events[1..]);
    }
  }

  /** How many events a call still needs when the store refuses everything. */
  function LeftToDo(call: Call): nat {
    if !InFlight(call) then 0
    else if call.Saved? && call.saved then 3
    else if call.Saving? || call.Undoing? || call.SigningOut? || call.Refreshing? then 2
    else 1
  }

  /** A call of no consequence for what is pending: no refresh, and a completion
      only of an authorization that is no longer the pending one. */
  predicate Idle(w: World, call: Call) {
    !IsRefresh(call) && (IsCompletion(call) ==> w.fields.pending != Some(call.id))
  }

  /** From w to v only call i moved, to its end, and it changed neither the store
      nor what is pending, nor readiness unless it was a sign-out that worked. */
  ghost predicate Finished(w: World, v: World, i: CallId)
    requires i < |w.calls|
  {
    && |v.calls| == |w.calls| && !InFlight(v.calls[i]) && v.calls == w.calls[i := v.calls[i]]
    && v.store == w.store && v.nextAuthorization == w.nextAuthorization && v.fields.pending == w.fields.pending
    && (w.calls[i] != SignedOff(true) ==> v.fields.readiness == w.fields.readiness)
  }

  /** An idle call can be brought to its end by a store that refuses. */
  lemma {:induction false} Finish(w: World, i: CallId) returns (events: seq<Event>)
    requires i < |w.calls| && Idle(w, w.calls[i])
    ensures (forall e <- events :: Settles(e)) && Finished(w, Run(w, events), i)
    decreases LeftToDo(w.calls[i])
  {
    if !InFlight(w.calls[i]) {
      events := [];
    } else {
      var c := w.calls[i];
      var e := if c.Saving? || c.Undoing? || c.SigningOut? then Store(i, false) else Resume(i, false);
      var v := Next(w, e);
      var rest := Finish(v, i);
      events := [e] + rest;
      assert events[1..] == rest;
    }
  }

  /** Every call beside c has come to its end, and nothing else has changed. */
  ghost predicate Alone(w: World, v: World, c: CallId) {
    && |v.calls| == |w.calls| && (c < |w.calls| ==> v.calls[c] == w.calls[c])
    && (forall i :: 0 <= i < |v.calls| && i != c ==> !InFlight(v.calls[i]))
    && v.store == w.store && v.nextAuthorization == w.nextAuthorization && v.fields.pending == w.fields.pending
    && ((forall i :: 0 <= i < |w.calls| && i != c ==> w.calls[i] != SignedOff(true)) ==>
          v.fields.readiness == w.fields.readiness)
  }

  lemma {:induction false} FinishBeside(w: World, c: CallId, k: nat) returns (events: seq<Event>)
    requires c < |w.calls| && k <= |w.calls|
    requires forall i :: 0 <= i < k && i != c ==> !InFlight(w.calls[i])
    requires forall i :: 0 <= i < |w.calls| && i != c ==> Idle(w, w.calls[i])
    ensures (forall e <- events :: Settles(e)) && Alone(w, Run(w, events), c)
    decreases |w.calls| - k
  {
    if k == |w.calls| {
      events := [];
    } else if k == c {
      events := FinishBeside(w, c, k + 1);
    } else {
      var first := Finish(w, k);
      var v := Run(w, first);
      var rest := FinishBeside(v, c, k + 1);
      events := first + rest;
      RunAppend(w, first, rest);
    }
  }

  function Overtaking(w: World, k: CallId, id: AuthorizationId): seq<Event> {
    var n := |w.calls|;
    [Complete(id, true)] + [Resume(n, true), Store(n, true), Store(k, true)] + [Resume(k, true), Resume(n, true)]
  }

  /** Only the sign-out k and the completion n are in flight. */
  ghost predicate OnlyTwo(w: World, k: CallId, n: CallId) {
    k < n < |w.calls| && forall i :: 0 <= i < |w.calls| && i != k && i != n ==> !InFlight(w.calls[i])
  }

  lemma OrderlyTwo(w: World, k: CallId, n: CallId)
    requires k < |w.calls| && w.calls[k] == SigningOut && (n < |w.calls| ==> w.calls[n].Exchanging?)
    requires forall i :: 0 <= i < |w.calls| && i != k && i != n ==> !InFlight(w.calls[i])
    ensures Orderly(w)
  {
  }

  lemma CompleteIsHarmless(w: World, id: AuthorizationId)
    ensures !Harmful(w, Complete(id, true))
  {
  }

  lemma OvertakeStarts(w: World, k: CallId, id: AuthorizationId)
    requires k < |w.calls| && w.calls[k] == SigningOut && w.fields.pending == Some(id)
    requires forall i :: 0 <= i < |w.calls| && i != k ==> !InFlight(w.calls[i])
    ensures var v := Run(w, [Complete(id, true)]);
      && CarefulRun(w, [Complete(id, true)]) && Orderly(v) && v.fields == w.fields
      && OnlyTwo(v, k, |w.calls|) && v.calls[k] == SigningOut && v.calls[|w.calls|] == Exchanging(id)
  {
    hide Orderly, Harmful;
    var e := Complete(id, true);
    RunThree(w, e, e, e);
    var v := Next(w, e);
    assert v == w.(calls := w.calls + [Exchanging(id)]);
    OrderlyTwo(w, k, |w.calls|);
    OrderlyTwo(v, k, |w.calls|);
    assert !Harmful(w, e) by { CompleteIsHarmless(w, id); }
    CarefulThree(w, e, e, e);
  }

  lemma OvertakeDeletes(w: World, k: CallId, n: CallId, id: AuthorizationId)
    requires OnlyTwo(w, k, n) && w.calls[k] == SigningOut && w.calls[n] == Exchanging(id)
    requires w.fields.pending == Some(id)
    ensures var v := Run(w, [Resume(n, true), Store(n, true), Store(k, true)]);
      && OnlyTwo(v, k, n) && v.calls[k] == SignedOff(true) && v.calls[n] == Saved(id, true)
      && v.store == None && v.fields == w.fields
  {
    RunThree(w, Resume(n, true), Store(n, true), Store(k, true));
  }

  lemma OvertakeEnds(w: World, k: CallId, n: CallId, id: AuthorizationId)
    requires OnlyTwo(w, k, n) && w.calls[k] == SignedOff(true) && w.calls[n] == Saved(id, true)
    requires w.store == None && w.fields.pending == Some(id)
    ensures RestsUnbacked(Run(w, [Resume(k, true), Resume(n, true)]))
  {
    RunThree(w, Resume(k, true), Resume(n, true), Resume(n, true));
  }

  lemma Overtake(w: World, k: CallId, id: AuthorizationId)
    requires k < |w.calls| && w.calls[k] == SigningOut && w.fields.pending == Some(id)
    requires forall i :: 0 <= i < |w.calls| && i != k ==> !InFlight(w.calls[i])
    ensures CarefulRun(w, Overtaking(w, k, id)) && RestsUnbacked(Run(w, Overtaking(w, k, id)))
  {
    hide Next, CarefulRun, RestsUnbacked, Run, Orderly, Harmful;
    var n := |w.calls|;
    var a, b, c := [Complete(id, true)], [Resume(n, true), Store(n, true), Store(k, true)],
      [Resume(k, true), Resume(n, true)];
    OvertakeStarts(w, k, id);
    var w1 := Run(w, a);
    OvertakeDeletes(w1, k, n, id);
    OvertakeEnds(Run(w1, b), k, n, id);
    SettlingIsCareful(w1, b + c);
    RunAppend(w1, b, c);
    RunAppend(w, a, b + c);
    CarefulAppend(w, a, b + c);
    assert a + (b + c) == Overtaking(w, k, id);
  }

  /** A begin beside an outstanding sign-out: the sign-out's delete can be
      carried out after the save of the authorization begun after it. */
  lemma BeginHarms(w: World, how: Beginning) returns (events: seq<Event>)
    requires Sound(w) && Orderly(w) && Harmful(w, Begin(how))
    ensures var v := Next(w, Begin(how)); CarefulRun(v, events) && RestsUnbacked(Run(v, events))
  {
    var v := Next(w, Begin(how));
    var id := w.nextAuthorization;
    var k: nat :| k < |w.calls| && w.calls[k] == SigningOut;
    forall i | 0 <= i < |v.calls| && i != k
      ensures Idle(v, v.calls[i])
    {
      assert SoundCall(w, w.calls[i]);
      assert InFlight(w.calls[k]);
    }
    var settling := FinishBeside(v, k, 0);
    SettlingIsCareful(v, settling);
    var u := Run(v, settling);
    Overtake(u, k, id);
    RunAppend(v, settling, Overtaking(u, k, id));
    events := settling + Overtaking(u, k, id);
    CarefulAppend(v, settling, Overtaking(u, k, id));
  }

  lemma Orphan(w: World, c: CallId) returns (events: seq<Event>)
    requires c < |w.calls| && (w.calls[c].Saving? || (w.calls[c].Saved? && w.calls[c].saved))
    requires w.fields == Fields(None, Ready)
    requires forall i :: 0 <= i < |w.calls| && i != c ==> !InFlight(w.calls[i])
    ensures (forall e <- events :: Settles(e)) && RestsUnbacked(Run(w, events))
  {
    var id := w.calls[c].id;
    var saving := if w.calls[c].Saving? then [Store(c, true)] else [];
    RunThree(w, Store(c, true), Store(c, true), Store(c, true));
    var v := Run(w, saving);
    assert v.fields == w.fields && v.calls == w.calls[c := Saved(id, true)];
    var undoing := [Resume(c, true), Store(c, true), Resume(c, true)];
    RunThree(v, Resume(c, true), Store(c, true), Resume(c, true));
    var u := Run(v, undoing);
    assert u.fields == w.fields && u.store.None? && u.calls == v.calls[c := GaveUp(id)];
    events := saving + undoing;
    RunAppend(w, saving, undoing);
  }

  /** A sign-out in `Ready` while the pending authorization is being saved: its
      delete can be refused, and the orphaned completion undoes the save. */
  lemma SignOutHarms(w: World) returns (events: seq<Event>)
    requires Sound(w) && Orderly(w) && Harmful(w, SignOut)
    ensures var v := Next(w, SignOut); CarefulRun(v, events) && RestsUnbacked(Run(v, events))
  {
    var v := Next(w, SignOut);
    var c: CallId :| SaveUnderWay(w, c);
    assert InFlight(w.calls[c]) && IsCompletion(w.calls[c]);
    forall i | 0 <= i < |v.calls| && i != c
      ensures Idle(v, v.calls[i]) && v.calls[i] != SignedOff(true)
    {
      if i < |w.calls| {
        assert w.calls[i] in w.calls;
      }
    }
    assert Orderly(v);
    var settling := FinishBeside(v, c, 0);
    var u := Run(v, settling);
    var undoing := Orphan(u, c);
    RunAppend(v, settling, undoing);
    events := settling + undoing;
    SettlingIsCareful(v, events);
  }

  /** From a sound world an orderly event is harmful if and only if some careful
      run after it rests in `Ready` with nothing stored. A begin that throws
      after it became pending hands out no id to go on with. */
  lemma HarmfulExactly(w: World, e: Event)
    requires Sound(w) && Orderly(w) && Orderly(Next(w, e)) && e != Begin(Unbuildable)
    ensures Harmful(w, e) <==>
      exists events :: CarefulRun(Next(w, e), events) && RestsUnbacked(Run(Next(w, e), events))
  {
    hide Next, Sound, Orderly, RestsUnbacked;
    if Harmful(w, e) {
      if e.Begin? {
        var events := BeginHarms(w, e.how);
        assert CarefulRun(Next(w, e), events) && RestsUnbacked(Run(Next(w, e), events));
      } else {
        var events := SignOutHarms(w);
        assert CarefulRun(Next(w, e), events) && RestsUnbacked(Run(Next(w, e), events));
      }
    } else {
      SoundStep(w, e);
      forall events | CarefulRun(Next(w, e), events)
        ensures !RestsUnbacked(Run(Next(w, e), events))
      {
        SoundRun(Next(w, e), events);
        SoundIsBacked(Run(Next(w, e), events));
      }
    }
  }

  lemma {:induction false} CarefulEnds(w: World, events: seq<Event>)
    requires CarefulRun(w, events)
    ensures Orderly(Run(w, events))
    decreases |events|
  {
    hide Next, Orderly, Harmful;
    if events != [] { CarefulEnds(Next(w, events[0]), events[1..]); }
  }

  /** After any careful run from any store, the next orderly event can lead to
      `Ready` with nothing stored if and only if it is one of the two harmful calls. */
  lemma UnbackedExactly(store: Option<Credential>, before: seq<Event>, e: Event)
    requires CarefulRun(Fresh(store), before)
    requires Orderly(Next(Run(Fresh(store), before), e)) && e != Begin(Unbuildable)
    ensures var w := Run(Fresh(store), before);
      Harmful(w, e) <==>
        exists after :: CarefulRun(Next(w, e), after) && RestsUnbacked(Run(Next(w, e), after))
  {
    SoundRun(Fresh(store), before);
    CarefulEnds(Fresh(store), before);
    HarmfulExactly(Run(Fresh(store), before), e);
  }

  // ----------------------------------------------------- the ways it goes wrong

  /** Three events lead from w to v, through orderly worlds or by harmless calls. */
  ghost predicate Leads(w: World, a: Event, b: Event, c: Event, v: World, orderly: bool) {
    var w1 := Next(w, a);
    var w2 := Next(w1, b);
    && Next(w2, c) == v
    && (if orderly then Orderly(w) && Orderly(w1) && Orderly(w2)
        else !Harmful(w, a) && !Harmful(w1, b) && !Harmful(w2, c))
  }

  ghost predicate Fine(w: World, events: seq<Event>, orderly: bool) {
    if orderly then OrderlyRun(w, events) else HarmlessRun(w, events)
  }

  lemma Thrice(w: World, a: Event, b: Event, c: Event, v: World, orderly: bool, rest: seq<Event>)
    requires Leads(w, a, b, c, v, orderly) && Fine(v, rest, orderly) && RestsUnbacked(Run(v, rest))
    ensures Fine(w, [a, b, c] + rest, orderly) && RestsUnbacked(Run(w, [a, b, c] + rest))
  {
    hide Next, Orderly, Harmful, RestsUnbacked;
    RunThree(w, a, b, c);
    CarefulThree(w, a, b, c);
    RunAppend(w, [a, b, c], rest);
    if orderly {
      assert Orderly(v);
      OrderlyAppend(w, [a, b, c], rest);
    } else {
      HarmlessAppend(w, [a, b, c], rest);
    }
  }

  const OVERTAKING_FROM := World(Fields(Some(0), Authorizing), None, 1, [SigningOut, Exchanging(0)])

  lemma OvertakingBegins()
    ensures Leads(Fresh(None), SignOut, Begin(Challenged), Complete(0, true), OVERTAKING_FROM, true)
    ensures Orderly(OVERTAKING_FROM)
  {
  }

  /** A begin beside an outstanding sign-out, in an orderly run: the sign-out's
      delete removes what the authorization begun after it has saved. */
  lemma OvertakingRestsUnbacked()
    ensures var events := [SignOut, Begin(Challenged), Complete(0, true)]
      + ([Resume(1, true), Store(1, true), Store(0, true)] + [Resume(0, true), Resume(1, true)]);
      OrderlyRun(Fresh(None), events) && RestsUnbacked(Run(Fresh(None), events))
  {
    hide Run, OrderlyRun, Next, Orderly, RestsUnbacked, Leads;
    var a, b := [Resume(1, true), Store(1, true), Store(0, true)], [Resume(0, true), Resume(1, true)];
    var w := OVERTAKING_FROM;
    OvertakingBegins();
    OvertakeDeletes(w, 0, 1, 0);
    OvertakeEnds(Run(w, a), 0, 1, 0);
    SettlingIsCareful(w, a + b);
    RunAppend(w, a, b);
    Thrice(Fresh(None), SignOut, Begin(Challenged), Complete(0, true), w, true, a + b);
  }

  const REFRESHED := World(Fields(Some(0), Authorizing), Some(Initial), 1, [RefreshRead(Some(true))])
  const SAVING := World(Fields(Some(0), Ready), Some(Initial), 1, [Returned, Saving(0)])
  const ORPHANED := World(Fields(None, Ready), Some(WrittenBy(1)), 1, [Returned, Saved(0, true), SignedOff(false)])
  const UNDONE := World(Fields(None, Ready), None, 1, [Returned, Undone(0, true), Returned])

  lemma RefusedSignOutSteps()
    ensures Leads(Fresh(Some(Initial)), Refresh, Begin(Challenged), Store(0, true), REFRESHED, true)
  {
  }

  lemma RefreshedCompletes()
    ensures Leads(REFRESHED, Resume(0, true), Complete(0, true), Resume(1, true), SAVING, true)
  {
  }

  /** With refresh done and at most one call a completion, all is orderly. */
  lemma OneCompletion(w: World)
    requires |w.calls| <= 3
    requires forall c <- w.calls :: !IsRefresh(c)
    requires forall i :: 0 <= i < |w.calls| && i != 1 ==> !IsCompletion(w.calls[i])
    ensures Orderly(w)
  {
  }

  lemma RefusedSignOutOrphans()
    ensures Leads(SAVING, SignOut, Store(1, true), Store(2, false), ORPHANED, true)
  {
    hide Orderly;
    OneCompletion(SAVING);
    var w := Next(SAVING, SignOut);
    OneCompletion(w);
    SettlesOrderly(w, Store(1, true));
  }

  lemma OrphanUndoes()
    ensures Leads(ORPHANED, Resume(2, true), Resume(1, true), Store(1, true), UNDONE, true)
    ensures Orderly(UNDONE) && RestsUnbacked(Next(UNDONE, Resume(1, true)))
  {
    hide Orderly;
    OneCompletion(ORPHANED);
    OneCompletion(UNDONE);
    SettlesOrderly(ORPHANED, Resume(2, true));
    SettlesOrderly(Next(ORPHANED, Resume(2, true)), Resume(1, true));
  }

  /** A sign-out in `Ready` while the pending authorization is being saved, in
      an orderly run: the store refuses its delete, and the orphaned completion
      then removes the credential that readiness still speaks of. */
  lemma RefusedSignOutRestsUnbacked()
    ensures var events := [Refresh, Begin(Challenged), Store(0, true)] + ([Resume(0, true), Complete(0, true), Resume(1, true)]
      + ([SignOut, Store(1, true), Store(2, false)] + ([Resume(2, true), Resume(1, true), Store(1, true)] + [Resume(1, true)])));
      OrderlyRun(Fresh(Some(Initial)), events) && RestsUnbacked(Run(Fresh(Some(Initial)), events))
  {
    hide Run, OrderlyRun, Next, Orderly, RestsUnbacked, Leads;
    RefusedSignOutSteps();
    RefreshedCompletes();
    RefusedSignOutOrphans();
    OrphanUndoes();
    var d := [Resume(1, true)];
    RunThree(UNDONE, Resume(1, true), Resume(1, true), Resume(1, true));
    SettlingIsCareful(UNDONE, d);
    Thrice(ORPHANED, Resume(2, true), Resume(1, true), Store(1, true), UNDONE, true, d);
    var c := [Resume(2, true), Resume(1, true), Store(1, true)] + d;
    Thrice(SAVING, SignOut, Store(1, true), Store(2, false), ORPHANED, true, c);
    var b := [SignOut, Store(1, true), Store(2, false)] + c;
    Thrice(REFRESHED, Resume(0, true), Complete(0, true), Resume(1, true), SAVING, true, b);
    var a := [Resume(0, true), Complete(0, true), Resume(1, true)] + b;
    Thrice(Fresh(Some(Initial)), Refresh, Begin(Challenged), Store(0, true), REFRESHED, true, a);
  }

  const EXCHANGING_TWICE := World(Fields(Some(0), Authorizing), None, 1, [Exchanging(0), Exchanging(0)])
  const SAVED_ONCE := World(Fields(Some(0), Authorizing), Some(WrittenBy(0)), 1, [Saved(0, true), Saving(0)])
  const LOSER_UNDOES := World(Fields(None, Ready), Some(WrittenBy(1)), 1, [FinishedReady(0), Undoing(0)])

  lemma OverlappingCompletionsSteps()
    ensures Leads(Fresh(None), Begin(Challenged), Complete(0, true), Complete(0, true), EXCHANGING_TWICE, false)
    ensures Leads(EXCHANGING_TWICE, Resume(0, true), Resume(1, true), Store(0, true), SAVED_ONCE, false)
    ensures Leads(SAVED_ONCE, Store(1, true), Resume(0, true), Resume(1, true), LOSER_UNDOES, false)
    ensures RestsUnbacked(Next(Next(LOSER_UNDOES, Store(1, true)), Resume(1, true)))
  {
  }

  /** Two completions at once, in a run without refresh and without a harmful
      call: the loser's cleanup removes the winner's credential. */
  lemma OverlappingCompletionsRestUnbacked()
    ensures var events := [Begin(Challenged), Complete(0, true), Complete(0, true)]
      + ([Resume(0, true), Resume(1, true), Store(0, true)] + ([Store(1, true), Resume(0, true), Resume(1, true)]
      + [Store(1, true), Resume(1, true)]));
      HarmlessRun(Fresh(None), events) && RestsUnbacked(Run(Fresh(None), events))
  {
    hide Run, HarmlessRun, Next, RestsUnbacked, Leads;
    OverlappingCompletionsSteps();
    var c := [Store(1, true), Resume(1, true)];
    RunThree(LOSER_UNDOES, Store(1, true), Resume(1, true), Resume(1, true));
    SettlingIsCareful(LOSER_UNDOES, c);
    Thrice(SAVED_ONCE, Store(1, true), Resume(0, true), Resume(1, true), LOSER_UNDOES, false, c);
    var b := [Store(1, true), Resume(0, true), Resume(1, true)] + c;
    Thrice(EXCHANGING_TWICE, Resume(0, true), Resume(1, true), Store(0, true), SAVED_ONCE, false, b);
    var a := [Resume(0, true), Resume(1, true), Store(0, true)] + b;
    Thrice(Fresh(None), Begin(Challenged), Complete(0, true), Complete(0, true), EXCHANGING_TWICE, false, a);
  }

  const STALE := World(Fields(None, Checking), Some(Initial), 0, [RefreshRead(Some(true)), SigningOut])

  lemma OverlappingRefreshSteps()
    ensures Leads(Fresh(Some(Initial)), Refresh, SignOut, Store(0, true), STALE, false)
    ensures RestsUnbacked(Next(Next(Next(STALE, Store(1, true)), Resume(1, true)), Resume(0, true)))
  {
  }

  /** A refresh that read the store before a sign-out emptied it, in a run
      without a harmful call. */
  lemma OverlappingRefreshRestsUnbacked()
    ensures var events := [Refresh, SignOut, Store(0, true)] + [Store(1, true), Resume(1, true), Resume(0, true)];
      HarmlessRun(Fresh(Some(Initial)), events) && RestsUnbacked(Run(Fresh(Some(Initial)), events))
  {
    hide Run, HarmlessRun, Next, RestsUnbacked, Leads;
    OverlappingRefreshSteps();
    var a := [Store(1, true), Resume(1, true), Resume(0, true)];
    RunThree(STALE, Store(1, true), Resume(1, true), Resume(0, true));
    SettlingIsCareful(STALE, a);
    Thrice(Fresh(Some(Initial)), Refresh, SignOut, Store(0, true), STALE, false, a);
  }
}
