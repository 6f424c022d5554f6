/** Replacing the configuration file through a staged copy and a rename, by any
    number of writers that may die after any step. */
module ConfigReplace {

  /** A regular file. */
  datatype File = File(mode: nat, contents: string)

  /** What the path names: a regular file, or nothing that may be replaced, such
      as a link, a directory or nothing at all. */
  datatype Node = Regular(file: File) | Irregular

  datatype Stage = Gone | Staged(file: File)

  datatype At =
    | Inspecting | Opening(mode: nat) | Writing(mode: nat, written: nat) | SettingMode(mode: nat)
    | Renaming | SyncingDirectory
    | CleaningUp(ok: bool)
    | Returned(ok: bool)
    | Died

  datatype Writer = Writer(contents: string, at: At, stage: Stage)

  /** `committed` lists the writers whose rename took place, in order. */
  datatype World = World(path: Node, writers: seq<Writer>, committed: seq<nat>)

  datatype Fate = Works(n: nat) | Breaks | Dies

  datatype Event = Start(contents: string) | Step(writer: nat, fate: Fate)

  predicate Running(at: At) {
    !at.Returned? && !at.Died?
  }

  function Min(a: nat, b: nat): nat {
    if a < b then a else b
  }

  function WithContents(s: Stage, contents: string): Stage {
    if s.Staged? then Staged(s.file.(contents := contents)) else s
  }

  function WithMode(s: Stage, mode: nat): Stage {
    if s.Staged? then Staged(s.file.(mode := mode)) else s
  }

  /** One step that does not rename. */
  function Stepped(path: Node, x: Writer, fate: Fate): Writer
    requires Running(x.at)
  {
    if fate.Dies? then x.(at := Died)
    else if fate.Breaks? then
      x.(at := if x.at.Inspecting? then Returned(false)
               else if x.at.CleaningUp? then Returned(x.at.ok)
               else CleaningUp(x.at.SyncingDirectory?))
    else match x.at
      case Inspecting => x.(at := if path.Regular? then Opening(path.file.mode) else Returned(false))
      case Opening(mode) => x.(at := Writing(mode, 0), stage := Staged(File(fate.n, [])))
      case Writing(mode, k) =>
        var written := Min(|x.contents|, k + fate.n);
        x.(at := if written == |x.contents| then SettingMode(mode) else Writing(mode, written),
           stage := WithContents(x.stage, x.contents[..written]))
      case SettingMode(mode) => x.(at := Renaming, stage := WithMode(x.stage, mode))
      case Renaming => x.(at := SyncingDirectory, stage := Gone)
      case SyncingDirectory => x.(at := CleaningUp(true))
      case CleaningUp(ok) => x.(at := Returned(ok), stage := Gone)
  }

  predicate Commits(x: Writer, fate: Fate) {
    x.at.Renaming? && fate.Works? && x.stage.Staged?
  }

  function Next(w: World, e: Event): World {
    match e
    case Start(contents) => w.(writers := w.writers + [Writer(contents, Inspecting, Gone)])
    case Step(i, fate) =>
      if i < |w.writers| && Running(w.writers[i].at) then
        var x := w.writers[i];
        var v := w.(writers := w.writers[i := Stepped(w.path, x, fate)]);
        if Commits(x, fate) then v.(path := Regular(x.stage.file), committed := w.committed + [i]) else v
      else w
  }

  function Run(w: World, events: seq<Event>): World
    decreases |events|
  {
    if events == [] then w else Run(Next(w, events[0]), events[1..])
  }

  /** The stage holds what the writer has put there so far. */
  ghost predicate StageReady(x: Writer, mode: nat) {
    match x.at
    case Opening(m) => m == mode
    case Writing(m, k) => m == mode && k <= |x.contents| && x.stage.Staged? && x.stage.file.contents == x.contents[..k]
    case SettingMode(m) => m == mode && x.stage.Staged? && x.stage.file.contents == x.contents
    case Renaming => x.stage == Staged(File(mode, x.contents))
    case _ => true
  }

  predicate HasCommitted(at: At) {
    at == SyncingDirectory || at == CleaningUp(true) || at == Returned(true)
  }

  /** A writer's report is right: success means its rename took place, failure
      means it did not. */
  ghost predicate Honest(w: World, i: nat)
    requires i < |w.writers|
  {
    var at := w.writers[i].at;
    && (HasCommitted(at) ==> i in w.committed)
    && (Running(at) || at.Returned? ==> (i in w.committed ==> HasCommitted(at)))
  }

  ghost predicate Whole(w: World, first: File) {
    && (forall k :: 0 <= k < |w.committed| ==> w.committed[k] < |w.writers|)
    && w.path == Regular(if w.committed == [] then first
                         else File(first.mode, w.writers[w.committed[|w.committed| - 1]].contents))
    && (forall i :: 0 <= i < |w.writers| ==> StageReady(w.writers[i], first.mode) && Honest(w, i))
  }

  lemma SteppedReady(path: Node, x: Writer, fate: Fate)
    requires path.Regular? && Running(x.at) && StageReady(x, path.file.mode)
    ensures StageReady(Stepped(path, x, fate), path.file.mode) && Stepped(path, x, fate).contents == x.contents
  {
    if x.at.Writing? && fate.Works? {
      assert x.contents[..|x.contents|] == x.contents;
    }
  }

  lemma WholeNext(w: World, e: Event, first: File)
    requires Whole(w, first)
    ensures Whole(Next(w, e), first)
  {
    var v := Next(w, e);
    if e.Step? && e.writer < |w.writers| && Running(w.writers[e.writer].at) {
      var i := e.writer;
      SteppedReady(w.path, w.writers[i], e.fate);
      if Commits(w.writers[i], e.fate) {
        assert v.committed[|v.committed| - 1] == i;
      }
      forall k | 0 <= k < |v.writers|
        ensures StageReady(v.writers[k], first.mode) && Honest(v, k)
      {
        assert StageReady(w.writers[k], first.mode) && Honest(w, k);
      }
    } else if e.Start? {
      forall k | 0 <= k < |v.writers|
        ensures StageReady(v.writers[k], first.mode) && Honest(v, k)
      {
        if k < |w.writers| {
          assert Honest(w, k);
        } else {
          assert forall c :: c in w.committed ==> c < |w.writers|;
        }
      }
    }
  }

  /** Whatever the interleaving and whoever dies, a reader of the path sees the
      whole old file or the whole contents of the last writer whose rename took
      place, with the permissions of the old file; a writer that reports success
      was committed, and one that reports failure never was. */
  lemma {:induction false} OldOrNewNeverMixed(w: World, events: seq<Event>, first: File)
    requires Whole(w, first)
    ensures var v := Run(w, events);
      && Whole(v, first)
      && v.path.Regular? && v.path.file.mode == first.mode
      && (v.path == Regular(first) || exists i :: 0 <= i < |v.writers| && v.path.file.contents == v.writers[i].contents)
      && forall i :: 0 <= i < |v.writers| && v.writers[i].at.Returned? ==> (v.writers[i].at.ok <==> i in v.committed)
    decreases |events|
  {
    hide Next;
    if events == [] {
      forall i | 0 <= i < |w.writers| && w.writers[i].at.Returned?
        ensures w.writers[i].at.ok <==> i in w.committed
      {
        assert Honest(w, i);
      }
    } else {
      WholeNext(w, events[0], first);
      OldOrNewNeverMixed(Next(w, events[0]), events[1..], first);
    }
  }

  /** From any file, before any writer: a reader sees that file or the whole
      contents of a writer whose rename took place. */
  lemma ReaderSeesOneWhole(first: File, events: seq<Event>)
    ensures var v := Run(World(Regular(first), [], []), events);
      v.path == Regular(first)
      || exists i :: i in v.committed && i < |v.writers| && v.path == Regular(File(first.mode, v.writers[i].contents))
  {
    OldOrNewNeverMixed(World(Regular(first), [], []), events, first);
    var v := Run(World(Regular(first), [], []), events);
    if v.committed != [] {
      assert v.committed[|v.committed| - 1] in v.committed;
    }
  }

  /** Every removal of a stage that is tried works. */
  ghost predicate RemovalsWork(w: World, events: seq<Event>)
    decreases |events|
  {
    events != [] ==>
      && (events[0].Step? && events[0].writer < |w.writers| && w.writers[events[0].writer].at.CleaningUp? ==>
            !events[0].fate.Breaks?)
      && RemovalsWork(Next(w, events[0]), events[1..])
  }

  /** A writer that has returned, or not opened its stage, has none. */
  ghost predicate Tidy(x: Writer) {
    x.at.Returned? || x.at.Inspecting? || x.at.Opening? ==> x.stage == Gone
  }

  lemma TidyStepped(path: Node, x: Writer, fate: Fate)
    requires Running(x.at) && Tidy(x) && (x.at.CleaningUp? ==> !fate.Breaks?)
    ensures Tidy(Stepped(path, x, fate))
  {
  }

  lemma TidyNext(w: World, e: Event)
    requires forall i :: 0 <= i < |w.writers| ==> Tidy(w.writers[i])
    requires e.Step? && e.writer < |w.writers| && w.writers[e.writer].at.CleaningUp? ==> !e.fate.Breaks?
    ensures forall i :: 0 <= i < |Next(w, e).writers| ==> Tidy(Next(w, e).writers[i])
  {
    hide Stepped;
    if e.Step? && e.writer < |w.writers| && Running(w.writers[e.writer].at) {
      TidyStepped(w.path, w.writers[e.writer], e.fate);
    }
  }

  /** When removals work, no writer that returns, with or without success, leaves
      its stage behind. */
  lemma {:induction false} NoStageLeft(w: World, events: seq<Event>)
    requires RemovalsWork(w, events) && forall i :: 0 <= i < |w.writers| ==> Tidy(w.writers[i])
    ensures var v := Run(w, events);
      forall i :: 0 <= i < |v.writers| && v.writers[i].at.Returned? ==> v.writers[i].stage == Gone
    decreases |events|
  {
    hide Next;
    if events == [] {
      assert forall i | 0 <= i < |w.writers| :: Tidy(w.writers[i]);
    } else {
      TidyNext(w, events[0]);
      NoStageLeft(Next(w, events[0]), events[1..]);
      assert Run(w, events) == Run(Next(w, events[0]), events[1..]);
    }
  }

  // ---------------------------------------------------------------- progress

  /** The fate of a writer's next step when all goes well: every write puts out
      something, and only syncing the directory may fail. */
  function Kindly(at: At, size: nat, syncs: bool): Fate {
    if at.SyncingDirectory? && !syncs then Breaks else Works(size)
  }

  /** One writer goes on alone, with these sizes for what it writes. */
  function Alone(w: World, i: nat, sizes: seq<nat>, syncs: bool): World
    requires i < |w.writers|
    decreases |sizes|
  {
    if sizes == [] then w
    else Alone(Next(w, Step(i, Kindly(w.writers[i].at, sizes[0], syncs))), i, sizes[1..], syncs)
  }

  /** How many kind steps are left at most. */
  function StepsLeft(x: Writer): nat {
    match x.at
    case Inspecting => |x.contents| + 7
    case Opening(_) => |x.contents| + 6
    case Writing(_, k) => if k <= |x.contents| then |x.contents| - k + 5 else 0
    case SettingMode(_) => 4
    case Renaming => 3
    case SyncingDirectory => 2
    case CleaningUp(_) => 1
    case _ => 0
  }

  /** The writer is on its way: not committed yet, or committed and the last. */
  ghost predicate OnItsWay(w: World, i: nat, first: File) {
    && Whole(w, first) && i < |w.writers| && !w.writers[i].at.Died?
    && w.writers[i].at != Returned(false) && w.writers[i].at != CleaningUp(false)
    && (HasCommitted(w.writers[i].at) ==> w.path == Regular(File(first.mode, w.writers[i].contents)))
    && (w.writers[i].at.Returned? ==> w.writers[i].stage == Gone)
  }

  /** The same for one step of the writer on its own. */
  lemma KindlyStepped(path: Node, x: Writer, size: nat, syncs: bool)
    requires path.Regular? && Running(x.at) && StageReady(x, path.file.mode) && size > 0
    requires x.at != CleaningUp(false)
    ensures var fate := Kindly(x.at, size, syncs);
      var y := Stepped(path, x, fate);
      && StepsLeft(y) < StepsLeft(x) && y.contents == x.contents
      && !y.at.Died? && y.at != Returned(false) && y.at != CleaningUp(false)
      && (y.at.Returned? ==> y.stage == Gone)
      && (HasCommitted(y.at) ==> HasCommitted(x.at) || Commits(x, fate))
      && (Commits(x, fate) ==> x.stage.file == File(path.file.mode, x.contents))
      && (HasCommitted(x.at) ==> !Commits(x, fate))
  {
  }

  lemma KindStep(w: World, i: nat, size: nat, syncs: bool, first: File)
    requires OnItsWay(w, i, first) && Running(w.writers[i].at) && size > 0
    ensures var v := Next(w, Step(i, Kindly(w.writers[i].at, size, syncs)));
      && OnItsWay(v, i, first) && v.writers[i].contents == w.writers[i].contents
      && StepsLeft(v.writers[i]) < StepsLeft(w.writers[i])
  {
    hide Stepped, StageReady, StepsLeft, HasCommitted, Commits, Kindly, Honest;
    var e := Step(i, Kindly(w.writers[i].at, size, syncs));
    assert StageReady(w.writers[i], first.mode);
    KindlyStepped(w.path, w.writers[i], size, syncs);
    WholeNext(w, e, first);
  }

  lemma StepsRemain(w: World, i: nat, first: File)
    requires OnItsWay(w, i, first)
    ensures i < |w.writers|
    ensures Running(w.writers[i].at) ==> StepsLeft(w.writers[i]) > 0
    ensures !Running(w.writers[i].at) ==> StepsLeft(w.writers[i]) == 0
    ensures !Running(w.writers[i].at) ==> w.writers[i].at == Returned(true) && forall fate :: Next(w, Step(i, fate)) == w
  {
    assert StageReady(w.writers[i], first.mode);
  }

  lemma {:induction false} AloneFinishes(w: World, i: nat, sizes: seq<nat>, syncs: bool, first: File)
    requires OnItsWay(w, i, first) && |sizes| >= StepsLeft(w.writers[i])
    requires forall k :: 0 <= k < |sizes| ==> sizes[k] > 0
    ensures var v := Alone(w, i, sizes, syncs);
      && OnItsWay(v, i, first) && v.writers[i].at == Returned(true) && v.writers[i].contents == w.writers[i].contents
    decreases |sizes|
  {
    hide Next, OnItsWay, StepsLeft;
    StepsRemain(w, i, first);
    if sizes != [] {
      if Running(w.writers[i].at) { KindStep(w, i, sizes[0], syncs, first); }
      AloneFinishes(Next(w, Step(i, Kindly(w.writers[i].at, sizes[0], syncs))), i, sizes[1..], syncs, first);
    }
  }

  /** After any history of any writers, a new writer that goes on alone, whatever
      sizes it writes in and whether or not the directory can be synced, reports
      success: it is committed, its stage is gone, and the path holds its whole
      contents with the permissions of the old file. */
  lemma LaterWriterSucceeds(first: File, events: seq<Event>, contents: string, sizes: seq<nat>, syncs: bool)
    requires |sizes| >= |contents| + 7 && forall k :: 0 <= k < |sizes| ==> sizes[k] > 0
    ensures var v := Run(World(Regular(first), [], []), events);
      var i := |v.writers|;
      var u := Alone(Next(v, Start(contents)), i, sizes, syncs);
      && i < |u.writers| && u.writers[i] == Writer(contents, Returned(true), Gone) && i in u.committed
      && u.path == Regular(File(first.mode, contents))
  {
    hide Alone, Run;
    OldOrNewNeverMixed(World(Regular(first), [], []), events, first);
    var v := Run(World(Regular(first), [], []), events);
    var i := |v.writers|;
    var w := Next(v, Start(contents));
    WholeNext(v, Start(contents), first);
    AloneFinishes(w, i, sizes, syncs, first);
    assert Honest(Alone(w, i, sizes, syncs), i);
  }

  /** A path that is no regular file is never replaced, and no writer that has
      yet to look at it succeeds. */
  lemma {:induction false} IrregularUntouched(w: World, events: seq<Event>)
    requires w.path.Irregular? && w.committed == []
    requires forall i :: 0 <= i < |w.writers| ==> w.writers[i].at in {Inspecting, Returned(false), Died}
    ensures var v := Run(w, events);
      && v.path.Irregular? && v.committed == []
      && forall i :: 0 <= i < |v.writers| ==> v.writers[i].at in {Inspecting, Returned(false), Died}
    decreases |events|
  {
    if events != [] { IrregularUntouched(Next(w, events[0]), events[1..]); }
  }
}
