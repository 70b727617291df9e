/** The journal is complete: every decision is in it, once. */
module BrokerAudit {
  import opened Common
  import opened FileSystem
  import opened Filenames
  import opened BrokerState
  import opened BrokerSafety

  /** The record of a decision; a failure of the system is no decision. */
  function DecisionRecord(kind: Capability, about: Detail, verdict: Verdict): seq<Call> {
    match verdict
    case Succeeded => [Call(kind, about, None)]
    case Refused(because) => [Call(kind, about, Some(because))]
    case Broke(_) => []
  }

  /** The record of a permission check that comes before the work. */
  function CheckRecord(kind: Capability, about: Detail, verdict: Verdict): seq<Call> {
    [Call(kind, about, if verdict.Refused? then Some(verdict.because) else None)]
  }

  function RefusalRecord(kind: Capability, about: Detail, verdict: Verdict): seq<Call> {
    if verdict.Refused? then [Call(kind, about, Some(verdict.because))] else []
  }

  /** A move is two decisions: about the original, then about the copy. */
  function MoveRecord(originalRefused: bool, id: nat, safe: Name, verdict: Verdict): seq<Call> {
    match verdict
    case Succeeded => [Call(FsWrite, AboutSave(id, safe), None), Call(FsWrite, AboutMove(id), None)]
    case Refused(because) =>
      [Call(FsWrite, if originalRefused then AboutId(id) else AboutSave(id, safe), Some(because))]
    case Broke(code) => if code == MoveIncomplete then [Call(FsWrite, AboutSave(id, safe), None)] else []
  }

  function NameOr(path: RawPath, fallback: Name): Detail {
    AboutName(match FileName(path) case Some(name) => name case None => fallback)
  }

  /** What a call with this verdict owes the journal, written down independently of how the call
      is carried out. `listed` is how many files a listing returned. */
  function OwedFor(m: Machine, s: State, e: Event, verdict: Verdict, listed: nat): seq<Call>
    requires e.IsCall()
  {
    match e
    case OpeningInput(node, handle) => CheckRecord(FsRead, AboutHandle(handle.kind, handle.id), verdict)
    case CreatingOutput(node, kind, _, _) =>
      DecisionRecord(FsWrite, AboutScratch(kind, s.nextHandle), verdict)
    case WritingOutput(node, handle, _, _) => RefusalRecord(FsWrite, AboutId(handle.id), verdict)
    case Saving(node, handle, _, filename, _) =>
      DecisionRecord(FsWrite, AboutSave(handle.id, Sanitise(m.unicode, filename)), verdict)
    case Moving(node, handle, _, filename, _, _) =>
      MoveRecord(RemovalRefusal(s, node, handle).Some?, handle.id, Sanitise(m.unicode, filename), verdict)
    case Listing(node, directory, _, _) =>
      DecisionRecord(FsRead, if verdict.Succeeded? then AboutListing(listed) else NameOr(directory, "folder"), verdict)
    case ImportingFound(node, path, _) =>
      DecisionRecord(FsRead, if verdict.Succeeded? then AboutOpened(s.nextHandle) else NameOr(path, "file"), verdict)
    case CheckingHttp(node, host) => CheckRecord(NetHttp, AboutName(host), verdict)
    case UsingClipboard(node, detail) => CheckRecord(Clipboard, AboutName(detail), verdict)
    case Notifying(node, title) => CheckRecord(Notifications, AboutName(title), verdict)
  }

  function Listed(s: State, e: Event): nat {
    if e.Listing? && ListDir(s, e.node, e.directory, e.limit, e.read).1.Done?
    then |ListDir(s, e.node, e.directory, e.limit, e.read).1.value| else 0
  }

  function Owed(m: Machine, s: State, e: Event): seq<Call>
    requires e.IsCall()
  {
    OwedFor(m, s, e, Step(m, s, e).1, Listed(s, e))
  }

  function Journalled(s: State, node: NodeId, calls: seq<Call>): map<NodeId, seq<Call>> {
    if calls == [] then s.calls else s.calls[node := Lookup(s.calls, node, []) + calls]
  }

  lemma SortKeepsLength(entries: seq<DirEntry>)
    ensures |SortByName(entries)| == |entries|
  {
    if entries != [] {
      SortKeepsLength(entries[1..]);
      InsertAddsOne(entries[0], SortByName(entries[1..]));
    }
  }

  lemma InsertAddsOne(e: DirEntry, sorted: seq<DirEntry>)
    ensures |InsertByName(e, sorted)| == |sorted| + 1
  {
  }

  lemma SaveOwes(m: Machine, s: State, node: NodeId, handle: Handle, directory: RawPath, filename: string, fault: bool)
    ensures var (t, o) := SaveTo(m, s, node, handle, directory, filename, fault);
            && t.calls == Journalled(s, node,
                 DecisionRecord(FsWrite, AboutSave(handle.id, Sanitise(m.unicode, filename)), VerdictOf(o)))
            && (o.Failed? ==> o.code == WriteFailed)
  {
  }

  lemma FinishMoveOwes(s: State, s1: State, saved: Outcome<RawPath>, node: NodeId, handle: Handle, source: RawPath,
                       safe: Name, removeFault: bool)
    requires s1.calls == Journalled(s, node, DecisionRecord(FsWrite, AboutSave(handle.id, safe), VerdictOf(saved)))
    requires saved.Failed? ==> saved.code == WriteFailed
    ensures var (t, o) := FinishMove(s1, saved, node, handle, source, removeFault);
            t.calls == Journalled(s, node, MoveRecord(false, handle.id, safe, VerdictOf(o)))
  {
    var log := Lookup(s.calls, node, []);
    var first, second := Call(FsWrite, AboutSave(handle.id, safe), None), Call(FsWrite, AboutMove(handle.id), None);
    assert (log + [first]) + [second] == log + [first, second];
  }

  lemma MoveOwes(m: Machine, s: State, node: NodeId, handle: Handle, directory: RawPath, filename: string,
                 fault: bool, removeFault: bool)
    ensures var (t, o) := MoveTo(m, s, node, handle, directory, filename, fault, removeFault);
            t.calls == Journalled(s, node, MoveRecord(RemovalRefusal(s, node, handle).Some?, handle.id,
                                                      Sanitise(m.unicode, filename), VerdictOf(o)))
  {
    var refusal := RemovalRefusal(s, node, handle);
    if refusal.None? {
      var (s1, saved) := SaveTo(m, s, node, handle, directory, filename, fault);
      SaveOwes(m, s, node, handle, directory, filename, fault);
      FinishMoveOwes(s, s1, saved, node, handle, s.handles[handle.id].path, Sanitise(m.unicode, filename), removeFault);
    }
  }

  lemma ListedOwes(s: State, node: NodeId, directory: RawPath, limit: nat, read: Option<seq<DirItem>>)
    requires ListDir(s, node, directory, limit, read).1.Done?
    ensures var (t, o) := ListDir(s, node, directory, limit, read);
            t.calls == Journalled(s, node, [Call(FsRead, AboutListing(|o.value|), None)])
  {
    SortKeepsLength(Collect(ResolveDir(s.fs, directory).value, read.value, limit).value);
  }

  lemma UnlistedOwes(s: State, node: NodeId, directory: RawPath, limit: nat, read: Option<seq<DirItem>>)
    requires !ListDir(s, node, directory, limit, read).1.Done?
    ensures var (t, o) := ListDir(s, node, directory, limit, read);
            t.calls == Journalled(s, node, DecisionRecord(FsRead, NameOr(directory, "folder"), VerdictOf(o)))
  {
  }

  lemma ListOwes(s: State, node: NodeId, directory: RawPath, limit: nat, read: Option<seq<DirItem>>)
    ensures var (t, o) := ListDir(s, node, directory, limit, read);
            t.calls == Journalled(s, node,
              if o.Done? then [Call(FsRead, AboutListing(|o.value|), None)]
              else DecisionRecord(FsRead, NameOr(directory, "folder"), VerdictOf(o)))
  {
    var o := ListDir(s, node, directory, limit, read).1;
    if o.Done? {
      ListedOwes(s, node, directory, limit, read);
    } else {
      UnlistedOwes(s, node, directory, limit, read);
    }
  }

  lemma OpenOwes(s: State, node: NodeId, handle: Handle)
    ensures var (t, o) := OpenInput(s, node, handle);
            t.calls == Journalled(s, node, CheckRecord(FsRead, AboutHandle(handle.kind, handle.id), VerdictOf(o)))
  {
  }

  lemma ImportOwes(s: State, node: NodeId, path: RawPath, kind: HandleKind)
    ensures var (t, o) := ImportGuarded(s, node, path, kind);
            t.calls == Journalled(s, node,
              DecisionRecord(FsRead, if o.Done? then AboutOpened(s.nextHandle) else NameOr(path, "file"), VerdictOf(o)))
  {
  }

  lemma CreateOwes(m: Machine, s: State, node: NodeId, kind: HandleKind, suggested: string, fault: bool)
    ensures var (t, o) := CreateOutput(m, s, node, kind, suggested, fault);
            t.calls == Journalled(s, node, DecisionRecord(FsWrite, AboutScratch(kind, s.nextHandle), VerdictOf(o)))
  {
  }

  lemma WriteOwes(s: State, node: NodeId, handle: Handle, bytes: Bytes, fault: bool)
    ensures var (t, o) := WriteOutput(s, node, handle, bytes, fault);
            t.calls == Journalled(s, node, RefusalRecord(FsWrite, AboutId(handle.id), VerdictOf(o)))
  {
  }

  lemma HttpOwes(s: State, node: NodeId, host: string)
    ensures var (t, o) := CheckHttp(s, node, host);
            t.calls == Journalled(s, node, DecisionRecord(NetHttp, AboutName(host), VerdictOf(o)))
  {
  }

  lemma ClipboardOwes(s: State, node: NodeId, detail: string)
    ensures var (t, o) := UseClipboard(s, node, detail);
            t.calls == Journalled(s, node, DecisionRecord(Clipboard, AboutName(detail), VerdictOf(o)))
  {
  }

  lemma NotifyOwes(s: State, node: NodeId, title: string)
    ensures var (t, o) := Notify(s, node, title);
            t.calls == Journalled(s, node, DecisionRecord(Notifications, AboutName(title), VerdictOf(o)))
  {
  }

  predicate ChangesFiles(e: Event) {
    e.Saving? || e.Moving? || e.CreatingOutput? || e.WritingOutput?
  }

  lemma FileCallsPay(m: Machine, s: State, e: Event)
    requires ChangesFiles(e)
    ensures Next(m, s, e).calls == Journalled(s, e.node, Owed(m, s, e))
  {
    match e {
      case Saving(node, handle, directory, filename, fault) =>
        SaveOwes(m, s, node, handle, directory, filename, fault);
      case Moving(node, handle, directory, filename, fault, removeFault) =>
        MoveOwes(m, s, node, handle, directory, filename, fault, removeFault);
      case CreatingOutput(node, kind, suggested, fault) => CreateOwes(m, s, node, kind, suggested, fault);
      case WritingOutput(node, handle, bytes, fault) => WriteOwes(s, node, handle, bytes, fault);
    }
  }

  lemma OtherCallsPay(m: Machine, s: State, e: Event)
    requires e.IsCall() && !ChangesFiles(e)
    ensures Next(m, s, e).calls == Journalled(s, e.node, Owed(m, s, e))
  {
    match e {
      case Listing(node, directory, limit, read) => ListOwes(s, node, directory, limit, read);
      case OpeningInput(node, handle) => OpenOwes(s, node, handle);
      case ImportingFound(node, path, kind) => ImportOwes(s, node, path, kind);
      case CheckingHttp(node, host) => HttpOwes(s, node, host);
      case UsingClipboard(node, detail) => ClipboardOwes(s, node, detail);
      case Notifying(node, title) => NotifyOwes(s, node, title);
    }
  }

  /** Every call adds exactly what it owes, to its own node's journal and to no other. */
  lemma EveryCallPaysWhatItOwes(m: Machine, s: State, e: Event)
    requires e.IsCall()
    ensures Next(m, s, e).calls == Journalled(s, e.node, Owed(m, s, e))
  {
    if ChangesFiles(e) {
      FileCallsPay(m, s, e);
    } else {
      OtherCallsPay(m, s, e);
    }
  }

  /** A refusal is one record carrying its reason. A success is only recorded as allowed, at least
      once unless it was a write to scratch; a failure of the system is never recorded as a
      refusal. */
  lemma WhatIsOwed(m: Machine, s: State, e: Event)
    requires e.IsCall()
    ensures var verdict, owed := Step(m, s, e).1, Owed(m, s, e);
            && (verdict.Refused? ==> |owed| == 1 && owed[0].because == Some(verdict.because))
            && (!verdict.Refused? ==> forall c :: c in owed ==> c.IsAllowed())
            && (verdict.Succeeded? && !e.WritingOutput? ==> owed != [])
            && (e.WritingOutput? && verdict.Succeeded? ==> owed == [])
  {
    OwedShape(m, s, e, Step(m, s, e).1, Listed(s, e));
  }

  lemma OwedShape(m: Machine, s: State, e: Event, verdict: Verdict, listed: nat)
    requires e.IsCall()
    ensures var owed := OwedFor(m, s, e, verdict, listed);
            && (verdict.Refused? ==> |owed| == 1 && owed[0].because == Some(verdict.because))
            && (!verdict.Refused? ==> forall c :: c in owed ==> c.IsAllowed())
            && (verdict.Succeeded? && !e.WritingOutput? ==> owed != [])
            && (e.WritingOutput? && verdict.Succeeded? ==> owed == [])
  {
  }

  lemma RefusedMoveChangesNothing(m: Machine, s: State, node: NodeId, handle: Handle, directory: RawPath,
                                  filename: string, fault: bool, removeFault: bool)
    ensures var (t, o) := MoveTo(m, s, node, handle, directory, filename, fault, removeFault);
            o.Denied? ==> t == s.(calls := t.calls)
  {
    RefusedSaveChangesNothing(m, s, node, handle, directory, filename, fault);
  }

  lemma RefusedSaveChangesNothing(m: Machine, s: State, node: NodeId, handle: Handle, directory: RawPath,
                                  filename: string, fault: bool)
    ensures var (t, o) := SaveTo(m, s, node, handle, directory, filename, fault);
            o.Denied? ==> t == s.(calls := t.calls)
  {
  }

  lemma RefusedImportChangesNothing(s: State, node: NodeId, path: RawPath, kind: HandleKind)
    ensures var (t, o) := ImportGuarded(s, node, path, kind); o.Denied? ==> t == s.(calls := t.calls)
  {
  }

  lemma RefusedFileCallChangesNothing(m: Machine, s: State, e: Event)
    requires ChangesFiles(e) && Step(m, s, e).1.Refused?
    ensures Next(m, s, e) == s.(calls := Next(m, s, e).calls)
  {
    match e {
      case Moving(node, handle, directory, filename, fault, removeFault) =>
        RefusedMoveChangesNothing(m, s, node, handle, directory, filename, fault, removeFault);
      case Saving(node, handle, directory, filename, fault) =>
        RefusedSaveChangesNothing(m, s, node, handle, directory, filename, fault);
      case _ =>
    }
  }

  /** A refused call leaves everything but the journal as it was. */
  lemma RefusalsChangeNothing(m: Machine, s: State, e: Event)
    requires e.IsCall() && Step(m, s, e).1.Refused?
    ensures Next(m, s, e) == s.(calls := Next(m, s, e).calls)
  {
    if ChangesFiles(e) {
      RefusedFileCallChangesNothing(m, s, e);
    } else if OnlyJournals(e) {
      JournalStep(m, s, e);
    } else {
      RefusedImportChangesNothing(s, e.node, e.path, e.kind);
    }
  }

  // -- over a run --------------------------------------------------------------------------------

  /** Everything decided about a node's calls over a run, in order. */
  function Decisions(m: Machine, s: State, es: seq<Event>, node: NodeId): seq<Call> {
    if es == [] then []
    else
      var e := Last(es);
      Decisions(m, s, Front(es), node)
      + if e.IsCall() && e.node == node then Owed(m, Run(m, s, Front(es)), e) else []
  }

  /** Everything handed over by `take_calls` for a node, in order. */
  function Taken(m: Machine, s: State, es: seq<Event>, node: NodeId): seq<Call> {
    if es == [] then []
    else
      var e := Last(es);
      Taken(m, s, Front(es), node)
      + if e.HostTakingCalls? && e.node == node then TakeCalls(Run(m, s, Front(es)), node).1 else []
  }

  lemma OtherStepsKeepJournal(m: Machine, s: State, e: Event)
    requires !e.IsCall() && !e.HostTakingCalls?
    ensures Next(m, s, e).calls == s.calls
  {
  }

  lemma TakingHandsOver(m: Machine, s: State, e: Event, node: NodeId)
    requires e.HostTakingCalls?
    ensures var taken := if e.node == node then TakeCalls(s, node).1 else [];
            taken + Lookup(Next(m, s, e).calls, node, []) == Lookup(s.calls, node, [])
  {
  }

  lemma CallExtends(m: Machine, s: State, e: Event, node: NodeId)
    requires e.IsCall()
    ensures Lookup(Next(m, s, e).calls, node, []) ==
              Lookup(s.calls, node, []) + if e.node == node then Owed(m, s, e) else []
  {
    EveryCallPaysWhatItOwes(m, s, e);
    var owed := Owed(m, s, e);
    assert Next(m, s, e).calls == Journalled(s, e.node, owed);
  }

  /** Whatever was handed over, followed by what is still there, is exactly what was decided:
      nothing lost, nothing repeated, nothing reordered. */
  lemma {:induction false} NothingLostFromTheJournal(m: Machine, s: State, es: seq<Event>, node: NodeId)
    requires s.calls == map[]
    ensures Taken(m, s, es, node) + Lookup(Run(m, s, es).calls, node, []) == Decisions(m, s, es, node)
  {
    if es != [] {
      var before, e := Run(m, s, Front(es)), Last(es);
      NothingLostFromTheJournal(m, s, Front(es), node);
      var taken, log := Taken(m, s, Front(es), node), Lookup(before.calls, node, []);
      var log' := Lookup(Next(m, before, e).calls, node, []);
      var handed := if e.HostTakingCalls? && e.node == node then TakeCalls(before, node).1 else [];
      var owed := if e.IsCall() && e.node == node then Owed(m, before, e) else [];
      StepBalances(m, before, e, node);
      Balance(taken, handed, log, log', Decisions(m, s, Front(es), node), owed);
    }
  }

  lemma Balance(taken: seq<Call>, handed: seq<Call>, log: seq<Call>, log': seq<Call>, decided: seq<Call>,
                owed: seq<Call>)
    requires taken + log == decided && handed + log' == log + owed
    ensures (taken + handed) + log' == decided + owed
  {
    assert (taken + handed) + log' == taken + (handed + log');
    assert (taken + log) + owed == taken + (log + owed);
  }

  lemma StepBalances(m: Machine, s: State, e: Event, node: NodeId)
    ensures var handed := if e.HostTakingCalls? && e.node == node then TakeCalls(s, node).1 else [];
            var owed := if e.IsCall() && e.node == node then Owed(m, s, e) else [];
            handed + Lookup(Next(m, s, e).calls, node, []) == Lookup(s.calls, node, []) + owed
  {
    if e.IsCall() {
      CallExtends(m, s, e, node);
    } else if e.HostTakingCalls? {
      TakingHandsOver(m, s, e, node);
    } else {
      OtherStepsKeepJournal(m, s, e);
    }
  }
}
