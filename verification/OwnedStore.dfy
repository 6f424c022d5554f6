/** Creating the helper's private store: a staged directory that is renamed into
    place, by any number of processes that may die after any step. */
module OwnedStore {

  const PRIVATE_DIRECTORY_MODE: nat := 0x1C0 // rwx for the owner only
  const PRIVATE_FILE_MODE: nat := 0x180      // rw for the owner only
  const MARKER: string := "wayfinder-codex-store-v1\n"

  datatype Marker = NoMarker | Marker(mode: nat, contents: string)

  /** What a path names: nothing, a directory of ours with at most the marker in
      it, or anything else. */
  datatype Node = Absent | Directory(mode: nat, marker: Marker) | Foreign

  /** The store as it should be. */
  const COMPLETE: Node := Directory(PRIVATE_DIRECTORY_MODE, Marker(PRIVATE_FILE_MODE, MARKER))

  /** Between two file-system steps of one process. */
  datatype At =
    | Inspecting
    | CheckingStore | CheckingStoreMarker
    | MakingStage | SettingStageMode | CheckingStage
    | OpeningMarker | WritingMarker(written: nat) | SettingMarkerMode | CheckingMarker
    | Renaming | CheckingResult | CheckingResultMarker
    | CleaningUp(ok: bool)
    | Returned(ok: bool)
    | Died

  /** Each process has a stage path of its own. */
  datatype Process = Process(at: At, stage: Node)

  datatype World = World(path: Node, processes: seq<Process>)

  /** What the system makes of a step: it works, with whatever the umask or a
      short write leaves, it fails, or the process dies first. */
  datatype Fate = Works(n: nat) | Breaks | Dies

  predicate PrivateDirectory(node: Node) {
    node.Directory? && node.mode == PRIVATE_DIRECTORY_MODE
  }

  predicate RightMarker(node: Node) {
    node.Directory? && node.marker == Marker(PRIVATE_FILE_MODE, MARKER)
  }

  /** Renaming a directory works onto nothing or onto an empty directory. */
  predicate Replaceable(path: Node) {
    path.Absent? || (path.Directory? && path.marker == NoMarker)
  }

  function Min(a: nat, b: nat): nat {
    if a < b then a else b
  }

  function WithMode(node: Node, mode: nat): Node {
    if node.Directory? then node.(mode := mode) else node
  }

  function WithMarker(node: Node, marker: Marker): Node {
    if node.Directory? then node.(marker := marker) else node
  }

  function MarkerMode(node: Node): nat {
    if node.Directory? && node.marker.Marker? then node.marker.mode else 0
  }

  function Contents(node: Node): string {
    if node.Directory? && node.marker.Marker? then node.marker.contents else []
  }

  /** One step of one process: the path and the process after it. */
  function Stepped(path: Node, p: Process, fate: Fate): (Node, Process)
    requires !p.at.Returned? && !p.at.Died?
  {
    if fate.Dies? then (path, p.(at := Died))
    else if fate.Breaks? then
      (path, p.(at := if p.at in {Inspecting, CheckingStore, CheckingStoreMarker, MakingStage} then Returned(false)
                      else if p.at.CleaningUp? then Returned(p.at.ok) else CleaningUp(false)))
    else match p.at
      case Inspecting =>
        (path, p.(at := if path.Foreign? then Returned(false)
                        else if path.Directory? then CheckingStore else MakingStage))
      case CheckingStore => (path, p.(at := if PrivateDirectory(path) then CheckingStoreMarker else Returned(false)))
      case CheckingStoreMarker => (path, p.(at := Returned(RightMarker(path))))
      case MakingStage => (path, Process(SettingStageMode, Directory(fate.n, NoMarker)))
      case SettingStageMode => (path, Process(CheckingStage, WithMode(p.stage, PRIVATE_DIRECTORY_MODE)))
      case CheckingStage => (path, p.(at := if PrivateDirectory(p.stage) then OpeningMarker else CleaningUp(false)))
      case OpeningMarker => (path, Process(WritingMarker(0), WithMarker(p.stage, Marker(fate.n, []))))
      case WritingMarker(k) =>
        var written := Min(|MARKER|, k + fate.n);
        (path, Process(if written == |MARKER| then SettingMarkerMode else WritingMarker(written),
                       WithMarker(p.stage, Marker(MarkerMode(p.stage), MARKER[..written]))))
      case SettingMarkerMode =>
        (path, Process(CheckingMarker, WithMarker(p.stage, Marker(PRIVATE_FILE_MODE, Contents(p.stage)))))
      case CheckingMarker => (path, p.(at := if RightMarker(p.stage) then Renaming else CleaningUp(false)))
      case Renaming =>
        if Replaceable(path) then (p.stage, Process(CheckingResult, Absent)) else (path, p.(at := CleaningUp(false)))
      case CheckingResult =>
        (path, p.(at := if PrivateDirectory(path) then CheckingResultMarker else CleaningUp(false)))
      case CheckingResultMarker => (path, p.(at := CleaningUp(RightMarker(path))))
      case CleaningUp(ok) => (path, Process(Returned(ok), Absent))
  }

  /** Either a process starts, or one that is still running takes a step. */
  datatype Event = Start | Step(process: nat, fate: Fate)

  function Next(w: World, e: Event): World {
    match e
    case Start => w.(processes := w.processes + [Process(Inspecting, Absent)])
    case Step(i, fate) =>
      if i < |w.processes| && !w.processes[i].at.Returned? && !w.processes[i].at.Died? then
        var (path, p) := Stepped(w.path, w.processes[i], fate);
        World(path, w.processes[i := p])
      else w
  }

  function Run(w: World, events: seq<Event>): World
    decreases |events|
  {
    if events == [] then w else Run(Next(w, events[0]), events[1..])
  }

  // ------------------------------------------------------------------ safety

  /** What a stage must look like for the step its process is about to take. */
  ghost predicate StageReady(p: Process) {
    match p.at
    case SettingStageMode => p.stage.Directory? && p.stage.marker == NoMarker
    case CheckingStage => p.stage == Directory(PRIVATE_DIRECTORY_MODE, NoMarker)
    case OpeningMarker => p.stage == Directory(PRIVATE_DIRECTORY_MODE, NoMarker)
    case WritingMarker(k) =>
      k <= |MARKER| && PrivateDirectory(p.stage) && p.stage.marker.Marker? && p.stage.marker.contents == MARKER[..k]
    case SettingMarkerMode =>
      PrivateDirectory(p.stage) && p.stage.marker.Marker? && p.stage.marker.contents == MARKER
    case CheckingMarker => p.stage == COMPLETE
    case Renaming => p.stage == COMPLETE
    case _ => true
  }

  /** A process that has seen or made the store, or reported success. */
  predicate Relies(at: At) {
    at == CheckingResult || at == CheckingResultMarker || at == CleaningUp(true) || at == Returned(true)
  }

  ghost predicate Safe(w: World) {
    && (w.path == Absent || w.path == COMPLETE)
    && forall i :: 0 <= i < |w.processes| ==>
         StageReady(w.processes[i]) && (Relies(w.processes[i].at) ==> w.path == COMPLETE)
  }

  lemma SafeStepped(path: Node, p: Process, fate: Fate)
    requires !p.at.Returned? && !p.at.Died?
    requires path == Absent || path == COMPLETE
    requires StageReady(p) && (Relies(p.at) ==> path == COMPLETE)
    ensures var (path', p') := Stepped(path, p, fate);
      && (path' == path || path' == COMPLETE)
      && StageReady(p') && (Relies(p'.at) ==> path' == COMPLETE)
  {
    if p.at.WritingMarker? && fate.Works? && Min(|MARKER|, p.at.written + fate.n) == |MARKER| {
      assert MARKER[..|MARKER|] == MARKER;
    }
  }

  lemma FreshReady()
    ensures StageReady(Process(Inspecting, Absent))
  {
  }

  lemma SafeNext(w: World, e: Event)
    requires Safe(w)
    ensures Safe(Next(w, e))
    ensures w.path == COMPLETE ==> Next(w, e).path == COMPLETE
  {
    hide Stepped, StageReady;
    match e
    case Start => assert StageReady(Process(Inspecting, Absent)) by { FreshReady(); }
    case Step(i, fate) =>
      if i < |w.processes| && !w.processes[i].at.Returned? && !w.processes[i].at.Died? {
        SafeStepped(w.path, w.processes[i], fate);
      }
  }

  /** However many processes prepare the store, however their steps interleave
      and whichever die or fail on the way, the store path is always either
      absent or a private directory with the complete marker; once there it
      stays; and a process that reports success reports the truth. */
  lemma {:induction false} AlwaysAbsentOrComplete(w: World, events: seq<Event>)
    requires Safe(w)
    ensures var v := Run(w, events);
      && Safe(v) && (v.path == Absent || v.path == COMPLETE)
      && (w.path == COMPLETE ==> v.path == COMPLETE)
      && forall i :: 0 <= i < |v.processes| && v.processes[i].at == Returned(true) ==> v.path == COMPLETE
    decreases |events|
  {
    hide Next;
    if events != [] {
      SafeNext(w, events[0]);
      AlwaysAbsentOrComplete(Next(w, events[0]), events[1..]);
    }
  }

  /** From a path with nothing or a complete store at it, before any process. */
  lemma NeverHalfMade(path: Node, events: seq<Event>)
    requires path == Absent || path == COMPLETE
    ensures var v := Run(World(path, []), events); v.path == Absent || v.path == COMPLETE
  {
    AlwaysAbsentOrComplete(World(path, []), events);
  }

  /** Whatever already occupies the path, other than an empty directory, is never
      replaced, written to or removed. */
  lemma {:induction false} OccupiedPathUntouched(w: World, events: seq<Event>)
    requires !Replaceable(w.path)
    ensures Run(w, events).path == w.path
    decreases |events|
  {
    if events != [] {
      var v := Next(w, events[0]);
      assert v.path == w.path;
      OccupiedPathUntouched(v, events[1..]);
    }
  }

  /** A process that has not vouched for what is at the path, nor will. */
  predicate Doubts(path: Node, at: At) {
    && at != CheckingResult && at != CheckingResultMarker && at != CleaningUp(true) && at != Returned(true)
    && (at == CheckingStoreMarker ==> PrivateDirectory(path))
  }

  lemma WrongStoreStepped(path: Node, p: Process, fate: Fate)
    requires !p.at.Returned? && !p.at.Died? && Doubts(path, p.at)
    requires !Replaceable(path) && path != COMPLETE
    ensures Stepped(path, p, fate).0 == path && Doubts(path, Stepped(path, p, fate).1.at)
  {
  }

  lemma RunNothing(w: World)
    ensures Run(w, []) == w
  {
  }

  lemma RunOnce(w: World, events: seq<Event>)
    requires events != []
    ensures Run(w, events) == Run(Next(w, events[0]), events[1..])
  {
  }

  /** Whatever else occupies the path, no process ever reports success. */
  lemma {:induction false} WrongStoreRefused(w: World, events: seq<Event>)
    requires !Replaceable(w.path) && w.path != COMPLETE
    requires forall i :: 0 <= i < |w.processes| ==> Doubts(w.path, w.processes[i].at)
    ensures forall i :: 0 <= i < |Run(w, events).processes| ==> Doubts(w.path, Run(w, events).processes[i].at)
    decreases |events|
  {
    hide Run;
    if events == [] {
      RunNothing(w);
    } else {
      var v := Next(w, events[0]);
      if events[0].Step? && events[0].process < |w.processes| && !w.processes[events[0].process].at.Returned?
         && !w.processes[events[0].process].at.Died? {
        WrongStoreStepped(w.path, w.processes[events[0].process], events[0].fate);
      }
      WrongStoreRefused(v, events[1..]);
      RunOnce(w, events);
    }
  }

  /** Every removal of a stage that is tried works. */
  ghost predicate RemovalsWork(w: World, events: seq<Event>)
    decreases |events|
  {
    events != [] ==>
      && (events[0].Step? && events[0].process < |w.processes| && w.processes[events[0].process].at.CleaningUp? ==>
            !events[0].fate.Breaks?)
      && RemovalsWork(Next(w, events[0]), events[1..])
  }

  /** A process that has returned, or not begun a stage, has none. */
  ghost predicate Tidy(p: Process) {
    p.at.Returned? || p.at in {Inspecting, CheckingStore, CheckingStoreMarker, MakingStage} ==> p.stage == Absent
  }

  lemma TidyStepped(path: Node, p: Process, fate: Fate)
    requires !p.at.Returned? && !p.at.Died? && Tidy(p) && (p.at.CleaningUp? ==> !fate.Breaks?)
    ensures Tidy(Stepped(path, p, fate).1)
  {
  }

  lemma TidyNext(w: World, e: Event)
    requires forall i :: 0 <= i < |w.processes| ==> Tidy(w.processes[i])
    requires e.Step? && e.process < |w.processes| && w.processes[e.process].at.CleaningUp? ==> !e.fate.Breaks?
    ensures forall i :: 0 <= i < |Next(w, e).processes| ==> Tidy(Next(w, e).processes[i])
  {
    hide Stepped;
    if e.Step? && e.process < |w.processes| && !w.processes[e.process].at.Returned? && !w.processes[e.process].at.Died? {
      TidyStepped(w.path, w.processes[e.process], e.fate);
    }
  }

  /** When removals work, no process that returns, with or without success, leaves
      its stage behind. */
  lemma {:induction false} NoStageLeft(w: World, events: seq<Event>)
    requires RemovalsWork(w, events) && forall i :: 0 <= i < |w.processes| ==> Tidy(w.processes[i])
    ensures var v := Run(w, events);
      forall i :: 0 <= i < |v.processes| && v.processes[i].at.Returned? ==> v.processes[i].stage == Absent
    decreases |events|
  {
    hide Next;
    if events == [] {
      assert forall i | 0 <= i < |w.processes| :: Tidy(w.processes[i]);
    } else {
      TidyNext(w, events[0]);
      NoStageLeft(Next(w, events[0]), events[1..]);
      assert Run(w, events) == Run(Next(w, events[0]), events[1..]);
    }
  }

  // ---------------------------------------------------------------- recovery

  /** The steps of process i, each of which works, with writes in one piece. */
  function Steps(i: nat, count: nat): seq<Event> {
    if count == 0 then [] else [Step(i, Works(|MARKER|))] + Steps(i, count - 1)
  }

  function Solo(path: Node, p: Process, count: nat): (Node, Process)
    decreases count
  {
    if count == 0 || p.at.Returned? || p.at.Died? then (path, p)
    else
      var (path', p') := Stepped(path, p, Works(|MARKER|));
      Solo(path', p', count - 1)
  }

  lemma {:induction false} SoloRuns(w: World, i: nat, count: nat)
    requires i < |w.processes|
    ensures var (path, p) := Solo(w.path, w.processes[i], count);
      Run(w, Steps(i, count)) == World(path, w.processes[i := p])
    decreases count
  {
    hide Stepped;
    if count == 0 {
      assert w.processes[i := w.processes[i]] == w.processes;
    } else if w.processes[i].at.Returned? || w.processes[i].at.Died? {
      assert Steps(i, count)[1..] == Steps(i, count - 1);
      assert Next(w, Step(i, Works(|MARKER|))) == w;
      SoloRuns(w, i, count - 1);
    } else {
      assert Steps(i, count)[1..] == Steps(i, count - 1);
      var v := Next(w, Step(i, Works(|MARKER|)));
      SoloRuns(v, i, count - 1);
      assert v.processes[i := Solo(v.path, v.processes[i], count - 1).1]
          == w.processes[i := Solo(v.path, v.processes[i], count - 1).1];
    }
  }

  lemma SoloStage()
    ensures Solo(Absent, Process(Inspecting, Absent), 14) == Solo(Absent, Process(Renaming, COMPLETE), 6)
  {
    var n := |MARKER|;
    assert MARKER[..n] == MARKER;
    var d := Directory(PRIVATE_DIRECTORY_MODE, NoMarker);
    var open := Directory(PRIVATE_DIRECTORY_MODE, Marker(n, []));
    var full := Directory(PRIVATE_DIRECTORY_MODE, Marker(n, MARKER));
    assert Solo(Absent, Process(CheckingMarker, COMPLETE), 7) == Solo(Absent, Process(Renaming, COMPLETE), 6);
    assert Solo(Absent, Process(SettingMarkerMode, full), 8) == Solo(Absent, Process(CheckingMarker, COMPLETE), 7);
    assert Solo(Absent, Process(WritingMarker(0), open), 9) == Solo(Absent, Process(SettingMarkerMode, full), 8);
    assert Solo(Absent, Process(OpeningMarker, d), 10) == Solo(Absent, Process(WritingMarker(0), open), 9);
    assert Solo(Absent, Process(CheckingStage, d), 11) == Solo(Absent, Process(OpeningMarker, d), 10);
    assert Solo(Absent, Process(SettingStageMode, Directory(n, NoMarker)), 12) == Solo(Absent, Process(CheckingStage, d), 11);
    assert Solo(Absent, Process(MakingStage, Absent), 13)
        == Solo(Absent, Process(SettingStageMode, Directory(n, NoMarker)), 12);
  }

  lemma SoloCommit()
    ensures Solo(Absent, Process(Renaming, COMPLETE), 6) == (COMPLETE, Process(Returned(true), Absent))
  {
    var done := (COMPLETE, Process(Returned(true), Absent));
    assert Solo(COMPLETE, Process(CleaningUp(true), Absent), 3) == done;
    assert Solo(COMPLETE, Process(CheckingResultMarker, Absent), 4) == done;
    assert Solo(COMPLETE, Process(CheckingResult, Absent), 5) == done;
  }

  lemma SoloSucceeds(path: Node)
    requires path == Absent || path == COMPLETE
    ensures Solo(path, Process(Inspecting, Absent), 14) == (COMPLETE, Process(Returned(true), Absent))
  {
    var p0 := Process(Inspecting, Absent);
    if path == COMPLETE {
      var p2 := Process(CheckingStoreMarker, Absent);
      assert Solo(path, p2, 12) == (COMPLETE, Process(Returned(true), Absent));
      assert Solo(path, Process(CheckingStore, Absent), 13) == Solo(path, p2, 12);
      assert Solo(path, p0, 14) == Solo(path, Process(CheckingStore, Absent), 13);
    } else {
      SoloStage();
      SoloCommit();
    }
  }

  /** After any such history, a new process that meets no failure of its own
      succeeds and leaves the complete store, its own stage gone. */
  lemma LaterRunSucceeds(w: World, events: seq<Event>)
    requires Safe(w)
    ensures var v := Run(w, events);
      var u := Run(Next(v, Start), Steps(|v.processes|, 14));
      && u.path == COMPLETE && |u.processes| == |v.processes| + 1
      && u.processes[|v.processes|] == Process(Returned(true), Absent)
  {
    AlwaysAbsentOrComplete(w, events);
    var v := Run(w, events);
    SoloSucceeds(v.path);
    SoloRuns(Next(v, Start), |v.processes|, 14);
  }
}
