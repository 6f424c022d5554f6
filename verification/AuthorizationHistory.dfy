/** What has to have happened for an authorization to finish, and what can no
    longer happen once it was refused, cancelled or signed out. */
module AuthorizationHistory {
  import opened Prelude
  import opened Authorization

  /** The world before event k of a run. */
  function Before(w: World, events: seq<Event>, k: nat): World
    requires k <= |events|
  {
    Run(w, events[..k])
  }

  lemma BeforeNext(w: World, events: seq<Event>, k: nat)
    requires k < |events|
    ensures Before(w, events, k + 1) == Next(Before(w, events, k), events[k])
  {
    hide Next;
    assert events[..k + 1] == events[..k] + [events[k]];
    RunAppend(w, events[..k], [events[k]]);
    RunThree(Before(w, events, k), events[k], events[k], events[k]);
  }

  lemma BeforeEnds(w: World, events: seq<Event>)
    ensures Before(w, events, 0) == w && Before(w, events, |events|) == Run(w, events)
  {
    assert events[..|events|] == events;
  }

  // --------------------------------------------------- how far a call has come

  /** Opened with a code, exchanged, saved, finished ready. */
  function Level(call: Call): nat {
    match call
    case Exchanging(_) => 1
    case Saving(_) => 2
    case Saved(_, saved) => if saved then 3 else 2
    case Undoing(_) => 3
    case Undone(_, _) => 3
    case LeftBehind(_) => 3
    case FinishedReady(_) => 4
    case _ => 0
  }

  /** The call i has come this far in w. */
  predicate Came(w: World, i: CallId, level: nat) {
    i < |w.calls| && Level(w.calls[i]) >= level
  }

  /** A call goes up one level at a time, each by one kind of event. */
  lemma StepUp(w: World, e: Event, i: CallId, level: nat)
    requires level >= 1 && Came(Next(w, e), i, level) && !Came(w, i, level)
    ensures var id := Next(w, e).calls[i].id;
      && level <= 4
      && (level == 1 ==> i == |w.calls| && e == Complete(id, true) && w.fields.pending == Some(id))
      && (level == 2 ==> i < |w.calls| && w.calls[i] == Exchanging(id) && e == Resume(i, true) && w.fields.pending == Some(id))
      && (level == 3 ==> i < |w.calls| && w.calls[i] == Saving(id) && e == Store(i, true))
      && (level == 4 ==> i < |w.calls| && w.calls[i] == Saved(id, true) && e.Resume? && e.call == i
                         && w.fields.pending == Some(id))
  {
  }

  /** A call keeps its authorization. */
  lemma SameId(w: World, e: Event, i: CallId)
    requires Came(w, i, 1) && Came(Next(w, e), i, 1)
    ensures Next(w, e).calls[i].id == w.calls[i].id
  {
  }

  /** The event by which the call reached the level that it has before event n. */
  lemma {:induction false} Crossing(w: World, events: seq<Event>, n: nat, i: CallId, level: nat) returns (k: nat)
    requires w.calls == [] && n <= |events| && level >= 1 && Came(Before(w, events, n), i, level)
    ensures k < n && !Came(Before(w, events, k), i, level) && Came(Before(w, events, k + 1), i, level)
    ensures Before(w, events, k + 1).calls[i].id == Before(w, events, n).calls[i].id
    decreases n
  {
    hide Next, Run;
    if n == 0 {
      BeforeEnds(w, events);
      assert false;
    } else {
      BeforeNext(w, events, n - 1);
      if Came(Before(w, events, n - 1), i, level) {
        SameId(Before(w, events, n - 1), events[n - 1], i);
        k := Crossing(w, events, n - 1, i, level);
      } else {
        k := n - 1;
      }
    }
  }

  // ------------------------------------------------------------- what is pending

  ghost predicate Issued(w: World, id: AuthorizationId) {
    id < w.nextAuthorization
  }

  /** Only an authorization that was begun is pending. */
  lemma {:induction false} PendingIssued(w: World, events: seq<Event>)
    requires w.fields.pending.Some? ==> Issued(w, w.fields.pending.value)
    ensures var v := Run(w, events); v.fields.pending.Some? ==> Issued(v, v.fields.pending.value)
    decreases |events|
  {
    if events != [] { PendingIssued(Next(w, events[0]), events[1..]); }
  }

  lemma {:induction false} IssuedStays(w: World, events: seq<Event>, o: nat, f: nat, id: AuthorizationId)
    requires o <= f <= |events| && Issued(Before(w, events, o), id)
    ensures Issued(Before(w, events, f), id)
    decreases f
  {
    hide Run;
    if o < f {
      IssuedStays(w, events, o, f - 1, id);
      BeforeNext(w, events, f - 1);
    }
  }

  /** An authorization that is pending at both ends was pending all the way, and
      no cancel of it and no sign-out came between. */
  lemma {:induction false} PendingThroughout(w: World, events: seq<Event>, o: nat, f: nat, id: AuthorizationId)
    requires o <= f <= |events| && Issued(Before(w, events, o), id)
    requires Before(w, events, f).fields.pending == Some(id)
    ensures Issued(Before(w, events, f), id)
    ensures forall k :: o <= k <= f ==> Before(w, events, k).fields.pending == Some(id)
    ensures forall k :: o <= k < f ==> events[k] != Cancel(id) && events[k] != SignOut
    decreases f
  {
    hide Run;
    if o < f {
      IssuedStays(w, events, o, f - 1, id);
      BeforeNext(w, events, f - 1);
      PendingThroughout(w, events, o, f - 1, id);
    }
  }

  // -------------------------------------------------------- the main statements

  /** Call i was opened by event o, a completion with a code of the authorization
      pending at that event. */
  ghost predicate OpenedAt(w: World, events: seq<Event>, o: nat, i: CallId, id: AuthorizationId) {
    && o < |events| && events[o] == Complete(id, true)
    && |Before(w, events, o).calls| == i && Before(w, events, o).fields.pending == Some(id)
  }

  /** Event x was the answer of a successful exchange, with the authorization
      still pending. */
  ghost predicate ExchangedAt(w: World, events: seq<Event>, x: nat, i: CallId, id: AuthorizationId) {
    && x < |events| && events[x] == Resume(i, true)
    && i < |Before(w, events, x).calls| && Before(w, events, x).calls[i] == Exchanging(id)
    && Before(w, events, x).fields.pending == Some(id)
  }

  /** Event s was the save, carried out. */
  ghost predicate SavedAt(w: World, events: seq<Event>, s: nat, i: CallId, id: AuthorizationId) {
    && s < |events| && events[s] == Store(i, true)
    && i < |Before(w, events, s).calls| && Before(w, events, s).calls[i] == Saving(id)
  }

  /** The authorization was pending from event o to event f, with no cancel of it
      and no sign-out between. */
  ghost predicate PendingFrom(w: World, events: seq<Event>, o: nat, f: nat, id: AuthorizationId) {
    && o <= f <= |events|
    && (forall k :: o <= k <= f ==> Before(w, events, k).fields.pending == Some(id))
    && (forall k :: o <= k < f ==> events[k] != Cancel(id) && events[k] != SignOut)
  }

  /** Opened and exchanged on the way to a save. */
  lemma Exchanged(store: Option<Credential>, events: seq<Event>, n: nat, i: CallId) returns (o: nat, x: nat)
    requires n <= |events| && Came(Before(Fresh(store), events, n), i, 2)
    ensures var w := Fresh(store);
      var id := Before(w, events, n).calls[i].id;
      && o < x < n && OpenedAt(w, events, o, i, id) && ExchangedAt(w, events, x, i, id)
      && PendingFrom(w, events, o, x, id)
  {
    hide Run, Next;
    var w := Fresh(store);
    x := Crossing(w, events, n, i, 2);
    BeforeNext(w, events, x);
    StepUp(Before(w, events, x), events[x], i, 2);
    o := Crossing(w, events, x, i, 1);
    BeforeNext(w, events, o);
    StepUp(Before(w, events, o), events[o], i, 1);
    PendingIssued(w, events[..o]);
    PendingThroughout(w, events, o, x, Before(w, events, n).calls[i].id);
  }

  /** Over every run: a call that finished ready was opened by a completion with a
      code of the authorization pending then, its exchange succeeded, its save was
      carried out, and the authorization stayed pending all the while: no cancel of
      it and no sign-out came before it finished. */
  lemma FinishedReadyWasEarned(store: Option<Credential>, events: seq<Event>, i: CallId)
    returns (o: nat, x: nat, s: nat, f: nat)
    requires i < |Run(Fresh(store), events).calls| && Run(Fresh(store), events).calls[i].FinishedReady?
    ensures var w := Fresh(store);
      var id := Run(w, events).calls[i].id;
      && o < x < s < f < |events|
      && OpenedAt(w, events, o, i, id) && ExchangedAt(w, events, x, i, id) && SavedAt(w, events, s, i, id)
      && events[f].Resume? && events[f].call == i && PendingFrom(w, events, o, f, id)
  {
    hide Run, Next;
    var w := Fresh(store);
    BeforeEnds(w, events);
    f := Crossing(w, events, |events|, i, 4);
    BeforeNext(w, events, f);
    StepUp(Before(w, events, f), events[f], i, 4);
    s := Crossing(w, events, f, i, 3);
    BeforeNext(w, events, s);
    StepUp(Before(w, events, s), events[s], i, 3);
    o, x := Exchanged(store, events, s, i);
    PendingIssued(w, events[..o]);
    PendingThroughout(w, events, o, f, Run(w, events).calls[i].id);
  }

  /** The event that wrote what is stored. */
  lemma {:induction false} Writing(w: World, events: seq<Event>, n: nat, i: CallId) returns (s: nat)
    requires n <= |events| && w.store != Some(WrittenBy(i)) && Before(w, events, n).store == Some(WrittenBy(i))
    ensures s < n && events[s] == Store(i, true)
    ensures i < |Before(w, events, s).calls| && Before(w, events, s).calls[i].Saving?
    decreases n
  {
    hide Run;
    if n == 0 {
      BeforeEnds(w, events);
      assert false;
    } else {
      BeforeNext(w, events, n - 1);
      if Before(w, events, n - 1).store == Some(WrittenBy(i)) {
        s := Writing(w, events, n - 1, i);
      } else {
        s := n - 1;
      }
    }
  }

  /** Over every run: a credential that a call wrote comes from a completion with a
      code of the authorization pending then, through a successful exchange during
      which it stayed pending. */
  lemma StoredWasEarned(store: Option<Credential>, events: seq<Event>, i: CallId) returns (o: nat, x: nat, s: nat)
    requires store != Some(WrittenBy(i)) && Run(Fresh(store), events).store == Some(WrittenBy(i))
    ensures var w := Fresh(store);
      && o < x < s < |events| && i < |Before(w, events, s).calls| && Came(Before(w, events, s), i, 1)
      && var id := Before(w, events, s).calls[i].id;
         && OpenedAt(w, events, o, i, id) && ExchangedAt(w, events, x, i, id) && SavedAt(w, events, s, i, id)
         && PendingFrom(w, events, o, x, id)
  {
    hide Run, Next;
    var w := Fresh(store);
    BeforeEnds(w, events);
    s := Writing(w, events, |events|, i);
    o, x := Exchanged(store, events, s, i);
  }

  // -------------------------------------------------------- what is over is over

  /** An authorization that was begun and is no longer pending never finishes. */
  lemma {:induction false} NeverAgain(w: World, events: seq<Event>, id: AuthorizationId)
    requires Issued(w, id) && w.fields.pending != Some(id)
    ensures var v := Run(w, events);
      && v.fields.pending != Some(id)
      && forall i :: 0 <= i < |v.calls| && v.calls[i] == FinishedReady(id) ==> i < |w.calls| && w.calls[i] == v.calls[i]
    decreases |events|
  {
    if events != [] {
      var u := Next(w, events[0]);
      assert forall i :: 0 <= i < |u.calls| && u.calls[i] == FinishedReady(id) ==> i < |w.calls| && w.calls[i] == u.calls[i];
      NeverAgain(u, events[1..], id);
    }
  }

  /** A call that gave up stays so and never writes. */
  lemma {:induction false} GivenUpNeverWrites(w: World, events: seq<Event>, i: CallId, id: AuthorizationId)
    requires i < |w.calls| && w.calls[i] == GaveUp(id) && w.store != Some(WrittenBy(i))
    ensures var v := Run(w, events); i < |v.calls| && v.calls[i] == GaveUp(id) && v.store != Some(WrittenBy(i))
    decreases |events|
  {
    if events != [] { GivenUpNeverWrites(Next(w, events[0]), events[1..], i, id); }
  }

  /** After any run, a callback without a code for the pending authorization leaves
      nothing pending, readiness failed and the store as it was; whatever happens
      after, that call never writes and that authorization never finishes. */
  lemma RejectedCallback(store: Option<Credential>, before: seq<Event>, id: AuthorizationId, after: seq<Event>)
    requires store.None? || store == Some(Initial)
    requires Run(Fresh(store), before).fields.pending == Some(id)
    ensures var w := Run(Fresh(store), before);
      var v := Next(w, Complete(id, false));
      var u := Run(v, after);
      && v.fields == Fields(None, Failed) && v.store == w.store && |v.calls| == |w.calls| + 1
      && |w.calls| < |u.calls| && u.calls[|w.calls|] == GaveUp(id) && u.store != Some(WrittenBy(|w.calls|))
      && forall i :: 0 <= i < |u.calls| && u.calls[i] == FinishedReady(id) ==> i < |w.calls| && w.calls[i] == u.calls[i]
  {
    hide Run;
    var w := Run(Fresh(store), before);
    var v := Next(w, Complete(id, false));
    PendingIssued(Fresh(store), before);
    AccountedRun(Fresh(store), before);
    NeverAgain(v, after, id);
    GivenUpNeverWrites(v, after, |w.calls|, id);
  }

  /** A begin while one is pending, or with a bad configuration, changes nothing. */
  lemma BeginRefused(w: World, how: Beginning)
    requires w.fields.pending.Some? || how == Misconfigured
    ensures Next(w, Begin(how)) == w.(nextAuthorization := w.nextAuthorization + 1)
  {
  }

  /** A completion of an authorization that is not the pending one changes nothing
      but that this call has given up. */
  lemma ForeignCallback(w: World, id: AuthorizationId, codeFound: bool)
    requires w.fields.pending != Some(id)
    ensures Next(w, Complete(id, codeFound)) == w.(calls := w.calls + [GaveUp(id)])
  {
  }

  /** After any run, a cancel of the pending authorization signs out and leaves the
      store as it was, a sign-out forgets it before the store is asked; whatever
      happens after either, it never finishes. Any other cancel changes nothing. */
  lemma CancelSticks(store: Option<Credential>, before: seq<Event>, id: AuthorizationId, e: Event, after: seq<Event>)
    requires e == Cancel(id) || e == SignOut
    ensures var w := Run(Fresh(store), before);
      var v := Next(w, e);
      var u := Run(v, after);
      && v.store == w.store
      && (w.fields.pending == Some(id) ==>
            && v.fields == Fields(None, if e == SignOut then w.fields.readiness else SignedOut)
            && forall i :: 0 <= i < |u.calls| && u.calls[i] == FinishedReady(id) ==>
                 i < |w.calls| && w.calls[i] == u.calls[i])
      && (w.fields.pending != Some(id) && e == Cancel(id) ==> v == w)
  {
    hide Run;
    var w := Run(Fresh(store), before);
    PendingIssued(Fresh(store), before);
    if w.fields.pending == Some(id) { NeverAgain(Next(w, e), after, id); }
  }

  // ------------------------------------------------------------ undisturbed calls

  /** One event of the call opened last. */
  lemma LastCall(w: World, calls: seq<Call>, c: Call, ok: bool)
    requires w.calls == calls + [c]
    ensures Next(w, Store(|calls|, ok))
         == w.(calls := calls + [Stored(w.store, |calls|, c, ok).1], store := Stored(w.store, |calls|, c, ok).0)
    ensures Next(w, Resume(|calls|, ok))
         == w.(calls := calls + [Continued(w.fields, c, ok).1], fields := Continued(w.fields, c, ok).0)
  {
    var d, e := Stored(w.store, |calls|, c, ok).1, Continued(w.fields, c, ok).1;
    assert w.calls[|calls|] == c;
    assert w.calls[|calls| := d] == calls + [d] && w.calls[|calls| := e] == calls + [e];
  }

  /** An authorization that nothing disturbs: a new id becomes pending, and it ends
      ready with its own credential stored if and only if the callback carried a
      code, the exchange succeeded and the save was carried out. Otherwise it ends
      failed, with nothing pending and the store as it was. */
  lemma UndisturbedAuthorization(w: World, codeFound: bool, exchanged: bool, saved: bool)
    requires w.fields.pending.None?
    ensures var id, n := w.nextAuthorization, |w.calls|;
      var begun := Next(w, Begin(Challenged));
      var v := Run(Run(begun, [Complete(id, codeFound), Resume(n, exchanged), Store(n, saved)]), [Resume(n, true)]);
      && begun == w.(fields := Fields(Some(id), Authorizing), nextAuthorization := id + 1)
      && |v.calls| == n + 1 && v.calls[..n] == w.calls && v.fields.pending == None
      && (codeFound && exchanged && saved ==>
            v.fields.readiness == Ready && v.store == Some(WrittenBy(n)) && v.calls[n] == FinishedReady(id))
      && (!(codeFound && exchanged && saved) ==>
            v.fields.readiness == Failed && v.store == w.store && v.calls[n] == GaveUp(id))
  {
    hide Run;
    var id, n := w.nextAuthorization, |w.calls|;
    var begun := Next(w, Begin(Challenged));
    RunThree(begun, Complete(id, codeFound), Resume(n, exchanged), Store(n, saved));
    var w1 := Next(begun, Complete(id, codeFound));
    var w2 := Next(w1, Resume(n, exchanged));
    var w3 := Next(w2, Store(n, saved));
    RunThree(w3, Resume(n, true), Resume(n, true), Resume(n, true));
    hide Next;
    var c1 := if codeFound then Exchanging(id) else GaveUp(id);
    LastCall(w1, w.calls, c1, exchanged);
    var c2 := if codeFound && exchanged then Saving(id) else GaveUp(id);
    LastCall(w2, w.calls, c2, saved);
    LastCall(w3, w.calls, if codeFound && exchanged then Saved(id, saved) else GaveUp(id), true);
  }

  lemma CallsOpened(w: World)
    ensures Next(w, Refresh) == w.(calls := w.calls + [Refreshing])
    ensures Next(w, SignOut) == w.(fields := Fields(None, w.fields.readiness), calls := w.calls + [SigningOut])
  {
  }

  lemma RefreshSteps(w: World, ok: bool)
    ensures var found := if ok then Some(w.store.Some?) else None;
      var reading := w.(calls := w.calls + [RefreshRead(found)]);
      && Next(w.(calls := w.calls + [Refreshing]), Store(|w.calls|, ok)) == reading
      && Next(reading, Resume(|w.calls|, true))
           == w.(fields := AfterRefresh(w.fields, found).0, calls := w.calls + [Returned])
  {
    hide Next;
    var found := if ok then Some(w.store.Some?) else None;
    LastCall(w.(calls := w.calls + [Refreshing]), w.calls, Refreshing, ok);
    LastCall(w.(calls := w.calls + [RefreshRead(found)]), w.calls, RefreshRead(found), true);
  }

  /** A refresh that nothing disturbs tells what the store holds. */
  lemma UndisturbedRefresh(w: World, ok: bool)
    ensures Run(w, [Refresh, Store(|w.calls|, ok), Resume(|w.calls|, true)])
         == w.(fields := w.fields.(readiness := if !ok then Failed else if w.store.Some? then Ready else SignedOut),
               calls := w.calls + [Returned])
  {
    hide Run, Next;
    RunThree(w, Refresh, Store(|w.calls|, ok), Resume(|w.calls|, true));
    CallsOpened(w);
    RefreshSteps(w, ok);
  }

  /** A sign-out that nothing disturbs empties the store, or says nothing new. */
  lemma UndisturbedSignOut(w: World, ok: bool)
    ensures var n := |w.calls|;
      Run(w, [SignOut, Store(n, ok), Resume(n, true)])
        == w.(fields := Fields(None, if ok then SignedOut else w.fields.readiness),
              store := if ok then None else w.store, calls := w.calls + [Returned])
  {
    hide Run, Next;
    var n := |w.calls|;
    RunThree(w, SignOut, Store(n, ok), Resume(n, true));
    CallsOpened(w);
    var w1 := Next(w, SignOut);
    LastCall(w1, w.calls, SigningOut, ok);
    var w2 := Next(w1, Store(n, ok));
    LastCall(w2, w.calls, SignedOff(ok), true);
  }
}
