/** Taking a publication in: the state machine the interface reads, and the asynchronous actions that
    drive it, in every order their answers can arrive. */
module ImportProtocol {
  import opened Common

  type Folder = string
  type Report = string
  type LibraryEntry = string
  type Failure = string

  datatype Stage = Choosing | Inspecting | Importing

  datatype Product = Inspected(folder: Folder, report: Report) | Imported(entry: LibraryEntry)

  datatype ImportState =
    | Idle
    | Busy(stage: Stage)
    | Success(product: Product)
    | Failed(failure: Failure)
    | Cancelled

  datatype ImportEvent =
    | Begin
    | Chose
    | Dismissed
    | InspectionDone(folder: Folder, report: Report)
    | Confirm
    | ImportDone(entry: LibraryEntry)
    | Failing(failure: Failure)
    | Acknowledge

  /** The next state, or the one handed in when the event is no legal move from it. */
  function Transition(state: ImportState, event: ImportEvent): ImportState {
    match event
    case Begin => if state.Busy? then state else Busy(Choosing)
    case Chose => if state == Busy(Choosing) then Busy(Inspecting) else state
    case Dismissed => if state == Busy(Choosing) then Cancelled else state
    case InspectionDone(folder, report) =>
      if state == Busy(Inspecting) then Success(Inspected(folder, report)) else state
    case Confirm => if InspectedNow(state).Some? then Busy(Importing) else state
    case ImportDone(entry) => if state == Busy(Importing) then Success(Imported(entry)) else state
    case Failing(failure) => if state.Busy? then Failed(failure) else state
    case Acknowledge => if state.Busy? || state.Idle? then state else Idle
  }

  function InspectedNow(state: ImportState): Option<Folder> {
    if state.Success? && state.product.Inspected? then Some(state.product.folder) else None
  }

  predicate CanBegin(state: ImportState) { !state.Busy? }

  predicate CanClose(state: ImportState) { !state.Busy? }

  predicate CanConfirm(state: ImportState) { InspectedNow(state).Some? }

  predicate DialogOpen(state: ImportState) {
    match state
    case Busy(stage) => stage != Choosing
    case Success(product) => product.Inspected?
    case Failed(_) => true
    case _ => false
  }

  /** A control that is enabled does something, and one that is disabled would do nothing: the selectors
      and the machine never disagree. */
  lemma ControlsMatchTheMachine(state: ImportState)
    ensures CanBegin(state) <==> Transition(state, Begin) != state
    ensures CanConfirm(state) <==> Transition(state, Confirm) != state
    ensures CanClose(state) && !state.Idle? <==> Transition(state, Acknowledge) != state
    ensures DialogOpen(state) ==> !state.Idle?
  {
  }

  /** Each answer moves the machine from the one stage it answers, and to one place; at every other state it is
      ignored. A failure is heard at every stage. The same event twice is the same as once. */
  lemma AnswersMoveTheirStage(state: ImportState, folder: Folder, report: Report, entry: LibraryEntry, failure: Failure)
    ensures Transition(state, Begin) == if state.Busy? then state else Busy(Choosing)
    ensures Transition(state, Chose) == if state == Busy(Choosing) then Busy(Inspecting) else state
    ensures Transition(state, Dismissed) == if state == Busy(Choosing) then Cancelled else state
    ensures Transition(state, InspectionDone(folder, report))
         == if state == Busy(Inspecting) then Success(Inspected(folder, report)) else state
    ensures Transition(state, ImportDone(entry)) == if state == Busy(Importing) then Success(Imported(entry)) else state
    ensures Transition(state, Failing(failure)) == if state.Busy? then Failed(failure) else state
    ensures forall event :: Transition(Transition(state, event), event) == Transition(state, event)
  {
  }

  // -- the actions and what they wait for -------------------------------------------------------

  /** An action that has started and waits for an answer. */
  datatype Task =
    | AwaitingFolder
    | AwaitingInspection(folder: Folder)
    | AwaitingImport(folder: Folder)
    | AwaitingListing(entry: LibraryEntry)

  function StageOf(task: Task): Option<Stage> {
    match task
    case AwaitingFolder => Some(Choosing)
    case AwaitingInspection(_) => Some(Inspecting)
    case AwaitingImport(_) => Some(Importing)
    case AwaitingListing(_) => None
  }

  /** What the runtime was asked and how inspections ended, in order. */
  datatype Note = InspectionSucceeded(folder: Folder) | InspectionFailed | ImportCalled(folder: Folder)

  datatype Desk = Desk(state: ImportState, tasks: map<nat, Task>, started: nat, notes: seq<Note>)

  const CleanDesk: Desk := Desk(Idle, map[], 0, [])

  /** What can happen next: a press, or an answer to some task that waits. */
  datatype Happening =
    | PressImport
    | PressConfirm
    | PressClose
    | FolderAnswer(task: nat, folder: Option<Folder>)
    | InspectionAnswer(task: nat, report: Report)
    | ImportAnswer(task: nat, entry: LibraryEntry)
    | ListingAnswer(task: nat)
    | Rejection(task: nat, failure: Failure)

  /** An answer goes to a task that waits for that kind of answer. Listing the library never rejects. */
  predicate Possible(d: Desk, h: Happening) {
    match h
    case PressImport => true
    case PressConfirm => true
    case PressClose => true
    case FolderAnswer(task, _) => task in d.tasks && d.tasks[task].AwaitingFolder?
    case InspectionAnswer(task, _) => task in d.tasks && d.tasks[task].AwaitingInspection?
    case ImportAnswer(task, _) => task in d.tasks && d.tasks[task].AwaitingImport?
    case ListingAnswer(task) => task in d.tasks && d.tasks[task].AwaitingListing?
    case Rejection(task, _) => task in d.tasks && !d.tasks[task].AwaitingListing?
  }

  function BeginImport(d: Desk): Desk {
    var next := Transition(d.state, Begin);
    if next == d.state then d
    else d.(state := next, tasks := d.tasks[d.started := AwaitingFolder], started := d.started + 1)
  }

  function ConfirmImport(d: Desk): Desk {
    var pending, next := InspectedNow(d.state), Transition(d.state, Confirm);
    if pending.None? || next == d.state then d
    else d.(state := next, tasks := d.tasks[d.started := AwaitingImport(pending.value)], started := d.started + 1,
            notes := d.notes + [ImportCalled(pending.value)])
  }

  function Settle(d: Desk, task: nat, event: ImportEvent): Desk {
    d.(state := Transition(d.state, event), tasks := d.tasks - {task})
  }

  function Happen(d: Desk, h: Happening): Desk
    requires Possible(d, h)
  {
    match h
    case PressImport => BeginImport(d)
    case PressConfirm => ConfirmImport(d)
    case PressClose => d.(state := Transition(d.state, Acknowledge))
    case FolderAnswer(task, folder) =>
      if folder.None? then Settle(d, task, Dismissed)
      else d.(state := Transition(d.state, Chose), tasks := d.tasks[task := AwaitingInspection(folder.value)])
    case InspectionAnswer(task, report) =>
      Settle(d, task, InspectionDone(d.tasks[task].folder, report))
        .(notes := d.notes + [InspectionSucceeded(d.tasks[task].folder)])
    case ImportAnswer(task, entry) =>
      d.(state := Transition(d.state, ImportDone(entry)), tasks := d.tasks[task := AwaitingListing(entry)])
    case ListingAnswer(task) => Settle(d, task, Acknowledge)
    case Rejection(task, failure) =>
      var settled := Settle(d, task, Failing(failure));
      if d.tasks[task].AwaitingInspection? then settled.(notes := d.notes + [InspectionFailed]) else settled
  }

  ghost predicate Afternoon(d: Desk, hs: seq<Happening>, end: Desk)
    decreases |hs|
  {
    if hs == [] then end == d
    else Possible(d, hs[0]) && Afternoon(Happen(d, hs[0]), hs[1..], end)
  }

  /** Some order of presses and answers leads here from a clean desk. */
  ghost predicate Reachable(d: Desk) {
    exists hs :: Afternoon(CleanDesk, hs, d)
  }

  // -- the invariant --------------------------------------------------------------------------------

  /** The task that owns the state, when there is one: it waits for the very stage the state is at. */
  ghost predicate Owns(d: Desk, task: nat) {
    task in d.tasks && StageOf(d.tasks[task]).Some? && d.state == Busy(StageOf(d.tasks[task]).value)
  }

  /** Busy at a stage exactly when one task waits for that stage; otherwise only library listings are
      still out. */
  ghost predicate BusyExactlyWhileAwaited(d: Desk) {
    && (d.state.Busy? ==> exists task :: Owns(d, task))
    && (forall task :: task in d.tasks && StageOf(d.tasks[task]).Some? ==> Owns(d, task))
    && (forall t, u :: Owns(d, t) && Owns(d, u) ==> t == u)
  }

  function LastInspection(notes: seq<Note>): Option<Note> {
    if notes == [] then None
    else if Last(notes).ImportCalled? then LastInspection(Front(notes))
    else Some(Last(notes))
  }

  /** Every import was called on the folder of the latest inspection before it, which succeeded, and no
      inspection was used twice. */
  predicate ImportsFollowInspections(notes: seq<Note>) {
    notes == [] ||
    (&& ImportsFollowInspections(Front(notes))
     && (Last(notes).ImportCalled? ==>
           Front(notes) != [] && Last(Front(notes)) == InspectionSucceeded(Last(notes).folder)))
  }

  ghost predicate DeskInvariant(d: Desk) {
    && BusyExactlyWhileAwaited(d)
    && (forall task :: task in d.tasks ==> task < d.started)
    && ImportsFollowInspections(d.notes)
    && (InspectedNow(d.state).Some? ==>
          d.notes != [] && Last(d.notes) == InspectionSucceeded(InspectedNow(d.state).value))
  }

  lemma NotesGrow(notes: seq<Note>, note: Note)
    requires ImportsFollowInspections(notes)
    requires note.ImportCalled? ==> notes != [] && Last(notes) == InspectionSucceeded(note.folder)
    ensures ImportsFollowInspections(notes + [note]) && Last(notes + [note]) == note
  {
    assert Front(notes + [note]) == notes;
  }

  lemma PressesKeep(d: Desk, h: Happening)
    requires DeskInvariant(d) && Possible(d, h) && (h.PressImport? || h.PressConfirm? || h.PressClose?)
    ensures DeskInvariant(Happen(d, h))
  {
    var e := Happen(d, h);
    if h.PressConfirm? && InspectedNow(d.state).Some? {
      NotesGrow(d.notes, ImportCalled(InspectedNow(d.state).value));
    }
    if e.state.Busy? && !d.state.Busy? {
      assert Owns(e, d.started);
    } else if e.state.Busy? {
      var task :| Owns(d, task);
      assert Owns(e, task);
    }
  }

  /** The answer to a task at work moves the machine on or settles it, and nobody else was at work. */
  lemma WorkAnswered(d: Desk, task: nat, e: Desk)
    requires BusyExactlyWhileAwaited(d) && (forall t :: t in d.tasks ==> t < d.started)
    requires task in d.tasks && StageOf(d.tasks[task]).Some?
    requires e.started == d.started && task < e.started
    requires forall t :: t in e.tasks && t != task ==> t in d.tasks && e.tasks[t] == d.tasks[t]
    requires task in e.tasks && StageOf(e.tasks[task]).Some? ==> e.state == Busy(StageOf(e.tasks[task]).value)
    requires e.state.Busy? ==> task in e.tasks && StageOf(e.tasks[task]).Some?
    ensures BusyExactlyWhileAwaited(e) && forall t :: t in e.tasks ==> t < e.started
  {
    assert Owns(d, task);
    forall t | t in d.tasks && StageOf(d.tasks[t]).Some? ensures t == task {
      assert Owns(d, t);
    }
    if e.state.Busy? {
      assert Owns(e, task);
    }
  }

  lemma FolderAnswerKeeps(d: Desk, h: Happening)
    requires DeskInvariant(d) && Possible(d, h) && h.FolderAnswer?
    ensures DeskInvariant(Happen(d, h))
  {
    assert Owns(d, h.task);
    WorkAnswered(d, h.task, Happen(d, h));
  }

  lemma InspectionShown(d: Desk, h: Happening)
    requires Possible(d, h) && h.InspectionAnswer? && Owns(d, h.task)
    ensures var folder := d.tasks[h.task].folder;
            Happen(d, h) == Desk(Success(Inspected(folder, h.report)), d.tasks - {h.task}, d.started,
                                 d.notes + [InspectionSucceeded(folder)])
  {
  }

  lemma InspectionAnswerKeeps(d: Desk, h: Happening)
    requires DeskInvariant(d) && Possible(d, h) && h.InspectionAnswer?
    ensures DeskInvariant(Happen(d, h))
  {
    var e, folder := Happen(d, h), d.tasks[h.task].folder;
    assert Owns(d, h.task);
    InspectionShown(d, h);
    WorkAnswered(d, h.task, e);
    NotesGrow(d.notes, InspectionSucceeded(folder));
  }

  lemma ImportAnswerKeeps(d: Desk, h: Happening)
    requires DeskInvariant(d) && Possible(d, h) && h.ImportAnswer?
    ensures DeskInvariant(Happen(d, h))
  {
    assert Owns(d, h.task);
    WorkAnswered(d, h.task, Happen(d, h));
  }

  lemma RejectionKeeps(d: Desk, h: Happening)
    requires DeskInvariant(d) && Possible(d, h) && h.Rejection?
    ensures DeskInvariant(Happen(d, h))
  {
    var e := Happen(d, h);
    assert Owns(d, h.task);
    WorkAnswered(d, h.task, e);
    if d.tasks[h.task].AwaitingInspection? {
      NotesGrow(d.notes, InspectionFailed);
    }
  }

  lemma ListingAnswerKeeps(d: Desk, h: Happening)
    requires DeskInvariant(d) && Possible(d, h) && h.ListingAnswer?
    ensures DeskInvariant(Happen(d, h))
  {
    var e := Happen(d, h);
    forall t ensures Owns(d, t) <==> Owns(e, t) {
    }
    if d.state.Busy? {
      var task :| Owns(d, task);
      assert Owns(e, task);
    }
  }

  lemma AnswersKeep(d: Desk, h: Happening)
    requires DeskInvariant(d) && Possible(d, h) && !(h.PressImport? || h.PressConfirm? || h.PressClose?)
    ensures DeskInvariant(Happen(d, h))
  {
    match h
    case FolderAnswer(_, _) => FolderAnswerKeeps(d, h);
    case InspectionAnswer(_, _) => InspectionAnswerKeeps(d, h);
    case ImportAnswer(_, _) => ImportAnswerKeeps(d, h);
    case ListingAnswer(_) => ListingAnswerKeeps(d, h);
    case Rejection(_, _) => RejectionKeeps(d, h);
  }

  lemma HappeningsKeep(d: Desk, h: Happening)
    requires Possible(d, h)
    ensures DeskInvariant(d) ==> DeskInvariant(Happen(d, h))
  {
    if DeskInvariant(d) {
      if h.PressImport? || h.PressConfirm? || h.PressClose? {
        PressesKeep(d, h);
      } else {
        AnswersKeep(d, h);
      }
    }
  }

  lemma {:induction false} InvariantHolds(d: Desk, hs: seq<Happening>, end: Desk)
    requires DeskInvariant(d) && Afternoon(d, hs, end)
    ensures DeskInvariant(end)
    decreases |hs|
  {
    if hs != [] {
      HappeningsKeep(d, hs[0]);
      InvariantHolds(Happen(d, hs[0]), hs[1..], end);
    }
  }

  lemma ReachableDesksAreInOrder(d: Desk)
    requires Reachable(d)
    ensures DeskInvariant(d)
  {
    var hs :| Afternoon(CleanDesk, hs, d);
    InvariantHolds(CleanDesk, hs, d);
  }

  // -- what follows -----------------------------------------------------------------------------------

  /** Under every interleaving, the answer to a task at work is never ignored: it finds the machine at
      the stage the task is at and moves it to where that answer leads. */
  lemma OwnersAnswerAlwaysCounts(d: Desk, h: Happening)
    requires Reachable(d) && Possible(d, h)
    requires h.FolderAnswer? || h.InspectionAnswer? || h.ImportAnswer? || h.Rejection?
    ensures Happen(d, h).state ==
              match h
              case FolderAnswer(_, folder) => (if folder.Some? then Busy(Inspecting) else Cancelled)
              case InspectionAnswer(task, report) => Success(Inspected(d.tasks[task].folder, report))
              case ImportAnswer(_, entry) => Success(Imported(entry))
              case Rejection(_, failure) => Failed(failure)
              case _ => d.state
  {
    ReachableDesksAreInOrder(d);
    assert Owns(d, h.task);
  }

  /** At every reachable desk the dialog stands open exactly while a publication is being read or written, while
      its report waits to be confirmed, and over a failure: not while a folder is being chosen, and not over an
      import that has succeeded. */
  lemma DialogExactly(d: Desk)
    requires Reachable(d)
    ensures DialogOpen(d.state) <==>
              || (exists task :: task in d.tasks
                                 && (d.tasks[task].AwaitingInspection? || d.tasks[task].AwaitingImport?))
              || (d.state.Success? && d.state.product.Inspected?)
              || d.state.Failed?
  {
    ReachableDesksAreInOrder(d);
    if d.state.Busy? {
      var task :| Owns(d, task);
      forall other | other in d.tasks && (d.tasks[other].AwaitingInspection? || d.tasks[other].AwaitingImport?)
        ensures other == task
      {
        assert Owns(d, other);
      }
    } else {
      forall task | task in d.tasks ensures d.tasks[task].AwaitingListing? {
        assert StageOf(d.tasks[task]).Some? ==> Owns(d, task);
      }
    }
  }

  /** At most one publication is being written at any time. */
  lemma OneImportAtATime(d: Desk, t: nat, u: nat)
    requires Reachable(d) && t in d.tasks && u in d.tasks
    requires d.tasks[t].AwaitingImport? && d.tasks[u].AwaitingImport?
    ensures t == u && d.state == Busy(Importing)
  {
    ReachableDesksAreInOrder(d);
    assert Owns(d, t) && Owns(d, u);
  }

  lemma {:induction false} ImportIsOfTheInspected(notes: seq<Note>, i: nat)
    requires ImportsFollowInspections(notes) && i < |notes| && notes[i].ImportCalled?
    ensures i > 0 && notes[i - 1] == InspectionSucceeded(notes[i].folder)
    decreases |notes|
  {
    if i < |notes| - 1 {
      assert Front(notes)[i] == notes[i];
      ImportIsOfTheInspected(Front(notes), i);
    }
  }

  /** Every import ever called was called on the folder whose successful inspection came immediately
      before it: never on a folder that was not read, refused, or replaced by another in between. */
  lemma EveryImportWasInspected(d: Desk, i: nat)
    requires Reachable(d) && i < |d.notes| && d.notes[i].ImportCalled?
    ensures i > 0 && d.notes[i - 1] == InspectionSucceeded(d.notes[i].folder)
  {
    ReachableDesksAreInOrder(d);
    ImportIsOfTheInspected(d.notes, i);
  }

  /** While anything is being done, closing does nothing and neither does starting another. */
  lemma NothingInterruptsWork(d: Desk)
    requires Reachable(d) && exists task :: task in d.tasks && StageOf(d.tasks[task]).Some?
    ensures Happen(d, PressClose) == d && Happen(d, PressImport) == d && Happen(d, PressConfirm) == d
  {
    ReachableDesksAreInOrder(d);
    var task :| task in d.tasks && StageOf(d.tasks[task]).Some?;
    assert Owns(d, task);
  }

  // -- the late acknowledgement -----------------------------------------------------------------------

  predicate MovesAnImported(h: Happening) { h.PressImport? || h.PressClose? || h.ListingAnswer? }

  /** The machine is in one state all along. */
  ghost predicate Unmoved(d: Desk, hs: seq<Happening>)
    decreases |hs|
  {
    hs == [] || (Possible(d, hs[0]) && Happen(d, hs[0]).state == d.state && Unmoved(Happen(d, hs[0]), hs[1..]))
  }

  lemma OneMoveOfAnImported(d: Desk, h: Happening)
    requires DeskInvariant(d) && Possible(d, h) && d.state.Success? && d.state.product.Imported?
    ensures Happen(d, h).state == d.state <==> !MovesAnImported(h)
    ensures !MovesAnImported(h) ==> Happen(d, h) == d
  {
    assert forall task :: task in d.tasks ==> !Owns(d, task);
  }

  /** An imported publication stays on screen exactly until Import or Close is pressed or a listing of the
      library arrives. So an import's acknowledgement finds something other than that import only when one
      of the three came between, and its own import whenever none did. */
  lemma {:induction false} ImportedStaysExactly(d: Desk, hs: seq<Happening>, end: Desk)
    requires Reachable(d) && Afternoon(d, hs, end) && d.state.Success? && d.state.product.Imported?
    ensures Unmoved(d, hs) <==> forall i :: 0 <= i < |hs| ==> !MovesAnImported(hs[i])
    decreases |hs|
  {
    if hs != [] {
      ReachableDesksAreInOrder(d);
      OneMoveOfAnImported(d, hs[0]);
      if !MovesAnImported(hs[0]) {
        ImportedStaysExactly(d, hs[1..], end);
        assert forall i :: 1 <= i < |hs| ==> hs[i] == hs[1..][i - 1];
      }
    }
  }

  // -- which report it finds --------------------------------------------------------------------------

  predicate ReportShown(d: Desk) { InspectedNow(d.state).Some? }

  /** The happenings that decide whether a report is on screen. */
  predicate Decides(h: Happening) {
    h.InspectionAnswer? || h.PressImport? || h.PressConfirm? || h.PressClose? || h.ListingAnswer?
  }

  /** The last of them. */
  function LastDeciding(hs: seq<Happening>): Option<Happening> {
    if hs == [] then None
    else if LastDeciding(hs[1..]).Some? then LastDeciding(hs[1..])
    else if Decides(hs[0]) then Some(hs[0])
    else None
  }

  lemma OneHappeningDecides(d: Desk, h: Happening)
    requires DeskInvariant(d) && Possible(d, h)
    ensures ReportShown(Happen(d, h)) <==> if Decides(h) then h.InspectionAnswer? else ReportShown(d)
    ensures h.InspectionAnswer? ==> Happen(d, h).state == Success(Inspected(d.tasks[h.task].folder, h.report))
    ensures !Decides(h) && ReportShown(d) ==> Happen(d, h).state == d.state
  {
    if h.FolderAnswer? || h.InspectionAnswer? || h.ImportAnswer? || h.Rejection? {
      assert Owns(d, h.task);
    }
  }

  /** Whatever happens from a desk in order, a report is on screen in the end if and only if the last thing that
      decides it was an inspection's answer, or nothing did and one was there before; and it is that answer's. */
  lemma {:induction false} ReportIsShownExactly(d: Desk, hs: seq<Happening>, end: Desk)
    requires DeskInvariant(d) && Afternoon(d, hs, end)
    ensures ReportShown(end) <==>
              match LastDeciding(hs)
              case None => ReportShown(d)
              case Some(h) => h.InspectionAnswer?
    ensures ReportShown(end) ==>
              match LastDeciding(hs)
              case None => end.state == d.state
              case Some(h) => h.InspectionAnswer? && end.state.product.report == h.report
    decreases |hs|
  {
    if hs != [] {
      OneHappeningDecides(d, hs[0]);
      HappeningsKeep(d, hs[0]);
      ReportIsShownExactly(Happen(d, hs[0]), hs[1..], end);
    }
  }

  /** The acknowledgement that follows an import: of all that can have happened since the import's result was
      shown, or since any reachable desk without a report, it closes a report if and only if the last of an
      inspection's answer, a press of Import, Confirm or Close, and another acknowledgement was an inspection's
      answer. It is that inspection's report, newer than the import. */
  lemma NewerReportIsClosedExactly(d: Desk, hs: seq<Happening>, end: Desk, task: nat)
    requires Reachable(d) && !ReportShown(d) && Afternoon(d, hs, end) && Possible(end, ListingAnswer(task))
    ensures ReportShown(end) && Happen(end, ListingAnswer(task)).state == Idle
            <==> LastDeciding(hs).Some? && LastDeciding(hs).value.InspectionAnswer?
    ensures ReportShown(end) ==> end.state.product.report == LastDeciding(hs).value.report
  {
    ReachableDesksAreInOrder(d);
    ReportIsShownExactly(d, hs, end);
  }

  lemma {:induction false} AfternoonSnoc(d: Desk, hs: seq<Happening>, end: Desk, h: Happening)
    requires Afternoon(d, hs, end) && Possible(end, h)
    ensures Afternoon(d, hs + [h], Happen(end, h))
    decreases |hs|
  {
    if hs == [] {
      assert ([] + [h])[1..] == [];
    } else {
      assert (hs + [h])[1..] == hs[1..] + [h];
      AfternoonSnoc(Happen(d, hs[0]), hs[1..], end, h);
    }
  }

  /** Whatever can happen at a reachable desk leads to a reachable desk. */
  lemma ReachableStep(d: Desk, h: Happening)
    requires Reachable(d) && Possible(d, h)
    ensures Reachable(Happen(d, h))
  {
    var hs :| Afternoon(CleanDesk, hs, d);
    AfternoonSnoc(CleanDesk, hs, d, h);
  }

  lemma CleanDeskIsReachable()
    ensures Reachable(CleanDesk)
  {
    assert Afternoon(CleanDesk, [], CleanDesk);
  }

  /** A press of Import, a folder and its report. */
  lemma ReadOne(d: Desk, f: Folder, r: Report) returns (e: Desk)
    requires Reachable(d) && !d.state.Busy? && d.started !in d.tasks
    ensures Reachable(e) && e.state == Success(Inspected(f, r)) && e.started == d.started + 1 && e.tasks == d.tasks
  {
    ReachableStep(d, PressImport);
    var d1 := Happen(d, PressImport);
    ReachableStep(d1, FolderAnswer(d.started, Some(f)));
    var d2 := Happen(d1, FolderAnswer(d.started, Some(f)));
    ReachableStep(d2, InspectionAnswer(d.started, r));
    e := Happen(d2, InspectionAnswer(d.started, r));
    assert e.tasks == d.tasks;
  }

  /** And that can be an inspection somebody is reading: import one, start on a second before the library
      has been listed again, and the second report is closed by the first import. */
  lemma NewerReportCanBeClosed(f: Folder, g: Folder, r: Report, q: Report, entry: LibraryEntry)
    ensures exists d, task :: Reachable(d) && Possible(d, ListingAnswer(task))
              && d.state == Success(Inspected(g, q)) && Happen(d, ListingAnswer(task)).state == Idle
  {
    CleanDeskIsReachable();
    var read := ReadOne(CleanDesk, f, r);
    ReachableStep(read, PressConfirm);
    var importing := Happen(read, PressConfirm);
    ReachableStep(importing, ImportAnswer(1, entry));
    var listing := Happen(importing, ImportAnswer(1, entry));
    assert listing.tasks == map[1 := AwaitingListing(entry)];
    var d := ReadOne(listing, g, q);
    assert Possible(d, ListingAnswer(1)) && Happen(d, ListingAnswer(1)).state == Idle;
  }
}
