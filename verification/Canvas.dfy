/** The editor's canvas as a function of its state: what every action makes of nodes, edges, history
    and clipboard, and what all of them keep. */
module Canvas {
  import opened Common
  import opened Clipboard
  import opened H = History

  datatype Editor = Editor(
    nodes: seq<EditorNode>,
    edges: seq<Edge>,
    selected: Option<NodeId>,
    history: History<Snapshot>,
    clipboard: Option<Snapshot>)

  function Now(e: Editor): Snapshot {
    Snapshot(e.nodes, e.edges)
  }

  // -- actions ---------------------------------------------------------------------------------

  predicate SameInput(e: Edge, target: NodeId, targetHandle: string) {
    e.target == target && e.targetHandle == targetHandle
  }

  function WireId(source: NodeId, sourceHandle: string, target: NodeId, targetHandle: string): string {
    "xy-edge__" + source + sourceHandle + "-" + target + targetHandle
  }

  function Wire(source: NodeId, sourceHandle: string, target: NodeId, targetHandle: string): Edge {
    Edge(WireId(source, sourceHandle, target, targetHandle), source, sourceHandle, target, targetHandle, false)
  }

  /** One value per input: a new connection replaces the one that was there. */
  function Connect(e: Editor, source: NodeId, sourceHandle: string, target: NodeId, targetHandle: string): Editor {
    var kept := Filter((f: Edge) => !SameInput(f, target, targetHandle), e.edges);
    e.(edges := kept + [Wire(source, sourceHandle, target, targetHandle)],
       history := Record(e.history, Now(e)))
  }

  function Without(e: Editor, doomed: set<NodeId>): Editor {
    e.(history := Record(e.history, Now(e)),
       nodes := Filter((n: EditorNode) => n.id !in doomed, e.nodes),
       edges := Filter((f: Edge) => f.source !in doomed && f.target !in doomed, e.edges))
  }

  function DeleteSelected(e: Editor): Editor {
    if e.selected.None? then e else Without(e, {e.selected.value}).(selected := None)
  }

  function DeleteSteps(e: Editor, doomed: set<NodeId>): Editor {
    if !exists n :: n in e.nodes && n.id in doomed then e
    else Without(e, doomed).(selected := if e.selected.Some? && e.selected.value in doomed then None else e.selected)
  }

  function DeleteConnection(e: Editor, edgeId: string): Editor {
    if !exists f :: f in e.edges && f.id == edgeId then e
    else e.(history := Record(e.history, Now(e)), edges := Filter((f: Edge) => f.id != edgeId, e.edges))
  }

  function MarkSelected(nodes: seq<EditorNode>, selected: bool): (r: seq<EditorNode>)
    ensures |r| == |nodes| && forall i :: 0 <= i < |nodes| ==> r[i] == nodes[i].(selected := selected)
  {
    seq(|nodes|, i requires 0 <= i < |nodes| => nodes[i].(selected := selected))
  }

  function SelectedIds(e: Editor): set<NodeId> {
    (set n | n in e.nodes && n.selected :: n.id) + (if e.selected.Some? then {e.selected.value} else {})
  }

  function CopySelection(e: Editor): Editor {
    if SelectedIds(e) == {} then e
    else e.(clipboard := Some(Cut(e.nodes, e.edges, SelectedIds(e))))
  }

  function PasteClipboard(e: Editor): Editor {
    if e.clipboard.None? || e.clipboard.value.nodes == [] then e
    else
      var pasted := Paste(e.clipboard.value, IdSet(e.nodes));
      e.(history := Record(e.history, Now(e)),
         nodes := MarkSelected(e.nodes, false) + pasted.nodes,
         edges := e.edges + pasted.edges,
         selected := Some(pasted.nodes[0].id))
  }

  function Land(e: Editor, step: Option<Step<Snapshot>>): Editor {
    if step.None? then e
    else e.(history := step.value.history, nodes := step.value.snapshot.nodes, edges := step.value.snapshot.edges)
  }

  function UndoEdit(e: Editor): Editor {
    Land(e, Undo(e.history, Now(e)))
  }

  function RedoEdit(e: Editor): Editor {
    Land(e, Redo(e.history, Now(e)))
  }

  function AddNode(e: Editor, node: EditorNode): Editor {
    e.(history := Record(e.history, Now(e)),
       nodes := MarkSelected(e.nodes, false) + [node.(selected := true)],
       selected := Some(node.id))
  }

  /** A change to one node's settings; these are not recorded. */
  function Configure(e: Editor, id: NodeId, data: NodeData): Editor {
    e.(nodes := seq(|e.nodes|, i requires 0 <= i < |e.nodes| =>
                      if e.nodes[i].id == id then e.nodes[i].(data := data) else e.nodes[i]))
  }

  /** Another project on the canvas. The clipboard stays. */
  function Load(e: Editor, snapshot: Snapshot): Editor {
    Editor(snapshot.nodes, snapshot.edges, None, Empty(), e.clipboard)
  }

  datatype Action =
    | Connecting(source: NodeId, sourceHandle: string, target: NodeId, targetHandle: string)
    | DeletingSelected
    | DeletingSteps(doomed: set<NodeId>)
    | DeletingConnection(edgeId: string)
    | Copying
    | Pasting
    | Duplicating
    | UndoingEdit
    | RedoingEdit
    | Selecting(selection: Option<NodeId>)
    | SelectingAll
    | Adding(node: EditorNode)
    | Configuring(id: NodeId, data: NodeData)
    | Loading(snapshot: Snapshot)

  function Act(e: Editor, a: Action): Editor {
    match a
    case Connecting(source, sourceHandle, target, targetHandle) =>
      Connect(e, source, sourceHandle, target, targetHandle)
    case DeletingSelected => DeleteSelected(e)
    case DeletingSteps(doomed) => DeleteSteps(e, doomed)
    case DeletingConnection(edgeId) => DeleteConnection(e, edgeId)
    case Copying => CopySelection(e)
    case Pasting => PasteClipboard(e)
    case Duplicating => PasteClipboard(CopySelection(e))
    case UndoingEdit => UndoEdit(e)
    case RedoingEdit => RedoEdit(e)
    case Selecting(selection) => e.(selected := selection)
    case SelectingAll => e.(nodes := MarkSelected(e.nodes, true))
    case Adding(node) => AddNode(e, node)
    case Configuring(id, data) => Configure(e, id, data)
    case Loading(snapshot) => Load(e, snapshot)
  }

  // -- well-formed canvases ----------------------------------------------------------------------

  ghost predicate Pairwise<T(!new)>(r: (T, T) -> bool, s: seq<T>) {
    forall i, j :: 0 <= i < j < |s| ==> r(s[i], s[j])
  }

  lemma {:induction false} FilterKeepsPairwise<T(!new)>(r: (T, T) -> bool, keep: T -> bool, s: seq<T>)
    requires Pairwise(r, s)
    ensures Pairwise(r, Filter(keep, s))
  {
    if s != [] {
      var rest := s[1..];
      forall i, j | 0 <= i < j < |rest| ensures r(rest[i], rest[j]) {
        assert r(s[i + 1], s[j + 1]);
      }
      FilterKeepsPairwise(r, keep, rest);
      forall j | 0 <= j < |Filter(keep, rest)| ensures r(s[0], Filter(keep, rest)[j]) {
        assert Filter(keep, rest)[j] in rest;
        var k :| 0 <= k < |rest| && rest[k] == Filter(keep, rest)[j];
        assert r(s[0], s[k + 1]);
      }
    }
  }

  lemma PairwiseConcat<T(!new)>(r: (T, T) -> bool, a: seq<T>, b: seq<T>)
    requires Pairwise(r, a) && Pairwise(r, b) && forall x, y :: x in a && y in b ==> r(x, y)
    ensures Pairwise(r, a + b)
  {
    var s := a + b;
    forall i, j | 0 <= i < j < |s| ensures r(s[i], s[j]) {
      if i < |a| <= j {
        assert s[i] in a && s[j] in b;
      }
    }
  }

  const DifferentIds: (EditorNode, EditorNode) -> bool := (m: EditorNode, n: EditorNode) => m.id != n.id

  const DifferentInputs: (Edge, Edge) -> bool := (e: Edge, f: Edge) => !SameInput(e, f.target, f.targetHandle)

  /** Node ids are distinct, every edge has both its ends, and no input has two edges. */
  ghost predicate WellFormed(s: Snapshot) {
    Pairwise(DifferentIds, s.nodes) && EndsPresent(s) && Pairwise(DifferentInputs, s.edges)
  }

  /** Everything an action could put on the canvas is well-formed: what is there, every snapshot either
      way in the history, and the clipboard. */
  ghost predicate AllWellFormed(e: Editor) {
    && WellFormed(Now(e))
    && (forall s :: s in e.history.past ==> WellFormed(s))
    && (forall s :: s in e.history.future ==> WellFormed(s))
    && (e.clipboard.Some? ==> WellFormed(e.clipboard.value))
  }

  /** What the surroundings guarantee: a connection is drawn between nodes that are there, a new node
      has a new id, and a project is loaded only if it is well-formed. */
  ghost predicate Legal(e: Editor, a: Action) {
    && (a.Connecting? ==> a.source in IdSet(e.nodes) && a.target in IdSet(e.nodes))
    && (a.Adding? ==> a.node.id !in IdSet(e.nodes))
    && (a.Loading? ==> WellFormed(a.snapshot))
  }

  lemma RecordKeepsWellFormed(e: Editor)
    requires AllWellFormed(e)
    ensures var h := Record(e.history, Now(e));
            (forall s :: s in h.past ==> WellFormed(s)) && h.future == []
  {
  }

  lemma ConnectKeeps(e: Editor, source: NodeId, sourceHandle: string, target: NodeId, targetHandle: string)
    requires AllWellFormed(e) && source in IdSet(e.nodes) && target in IdSet(e.nodes)
    ensures AllWellFormed(Connect(e, source, sourceHandle, target, targetHandle))
  {
    RecordKeepsWellFormed(e);
    var keep := (f: Edge) => !SameInput(f, target, targetHandle);
    FilterKeepsPairwise(DifferentInputs, keep, e.edges);
    var wire := Wire(source, sourceHandle, target, targetHandle);
    PairwiseConcat(DifferentInputs, Filter(keep, e.edges), [wire]);
    assert Now(Connect(e, source, sourceHandle, target, targetHandle))
        == Snapshot(e.nodes, Filter(keep, e.edges) + [wire]);
  }

  lemma SubgraphIsWellFormed(s: Snapshot, keepNode: EditorNode -> bool, keepEdge: Edge -> bool)
    requires WellFormed(s)
    requires forall f, n :: f in s.edges && keepEdge(f) && n in s.nodes && (n.id == f.source || n.id == f.target)
               ==> keepNode(n)
    ensures WellFormed(Snapshot(Filter(keepNode, s.nodes), Filter(keepEdge, s.edges)))
  {
    FilterKeepsPairwise(DifferentIds, keepNode, s.nodes);
    FilterKeepsPairwise(DifferentInputs, keepEdge, s.edges);
    var t := Snapshot(Filter(keepNode, s.nodes), Filter(keepEdge, s.edges));
    forall f | f in t.edges ensures f.source in IdSet(t.nodes) && f.target in IdSet(t.nodes) {
      var m :| m in s.nodes && m.id == f.source;
      var n :| n in s.nodes && n.id == f.target;
      assert m in t.nodes && n in t.nodes;
    }
  }

  lemma WithoutKeeps(e: Editor, doomed: set<NodeId>)
    requires AllWellFormed(e)
    ensures AllWellFormed(Without(e, doomed))
  {
    RecordKeepsWellFormed(e);
    var keepNode := (n: EditorNode) => n.id !in doomed;
    var keepEdge := (f: Edge) => f.source !in doomed && f.target !in doomed;
    SubgraphIsWellFormed(Now(e), keepNode, keepEdge);
    assert Now(Without(e, doomed)) == Snapshot(Filter(keepNode, e.nodes), Filter(keepEdge, e.edges));
  }

  lemma DeleteConnectionKeeps(e: Editor, edgeId: string)
    requires AllWellFormed(e)
    ensures AllWellFormed(DeleteConnection(e, edgeId))
  {
    RecordKeepsWellFormed(e);
    FilterKeepsPairwise(DifferentInputs, (f: Edge) => f.id != edgeId, e.edges);
  }

  lemma CopyKeeps(e: Editor)
    requires AllWellFormed(e)
    ensures AllWellFormed(CopySelection(e))
  {
    var ids := SelectedIds(e);
    SubgraphIsWellFormed(Now(e), (n: EditorNode) => n.id in ids, (f: Edge) => f.source in ids && f.target in ids);
  }

  /** Relabelling selection or settings keeps ids, and with them everything well-formedness is about. */
  lemma SameIdsStayWellFormed(s: Snapshot, nodes: seq<EditorNode>)
    requires WellFormed(s) && |nodes| == |s.nodes| && forall i :: 0 <= i < |nodes| ==> nodes[i].id == s.nodes[i].id
    ensures WellFormed(Snapshot(nodes, s.edges)) && IdSet(nodes) == IdSet(s.nodes)
  {
    forall i, j | 0 <= i < j < |nodes| ensures DifferentIds(nodes[i], nodes[j]) {
      assert DifferentIds(s.nodes[i], s.nodes[j]);
    }
    forall id ensures id in IdSet(nodes) <==> id in IdSet(s.nodes) {
      if n :| n in nodes && n.id == id {
        var i :| 0 <= i < |nodes| && nodes[i] == n;
        assert s.nodes[i] in s.nodes;
      }
      if n :| n in s.nodes && n.id == id {
        var i :| 0 <= i < |nodes| && s.nodes[i] == n;
        assert nodes[i] in nodes;
      }
    }
  }

  lemma PairwiseIdsAreDistinct(nodes: seq<EditorNode>)
    ensures Pairwise(DifferentIds, nodes) <==> Distinct(Ids(nodes))
  {
    if Pairwise(DifferentIds, nodes) {
      forall i, j | 0 <= i < j < |nodes| ensures Ids(nodes)[i] != Ids(nodes)[j] {
        assert DifferentIds(nodes[i], nodes[j]);
      }
    }
    if Distinct(Ids(nodes)) {
      forall i, j | 0 <= i < j < |nodes| ensures DifferentIds(nodes[i], nodes[j]) {
        assert Ids(nodes)[i] != Ids(nodes)[j];
      }
    }
  }

  lemma PastedInputsDiffer(clipboard: Snapshot, existing: set<NodeId>)
    requires WellFormed(clipboard)
    ensures Pairwise(DifferentInputs, Paste(clipboard, existing).edges)
  {
    PairwiseIdsAreDistinct(clipboard.nodes);
    RenamingIsInjective(clipboard, existing);
    PastedEdgesAreCopies(clipboard, existing);
    var names, p := Renaming(clipboard, existing), Paste(clipboard, existing);
    forall i, j | 0 <= i < j < |p.edges| ensures DifferentInputs(p.edges[i], p.edges[j]) {
      assert DifferentInputs(clipboard.edges[i], clipboard.edges[j]);
      assert EdgeCopied(names, clipboard.edges[i], p.edges[i]) && EdgeCopied(names, clipboard.edges[j], p.edges[j]);
    }
  }

  lemma SideBySide(s: Snapshot, t: Snapshot)
    requires WellFormed(s) && WellFormed(t) && IdSet(t.nodes) !! IdSet(s.nodes)
    ensures WellFormed(Snapshot(s.nodes + t.nodes, s.edges + t.edges))
  {
    forall m, n | m in s.nodes && n in t.nodes ensures DifferentIds(m, n) {
      assert m.id in IdSet(s.nodes) && n.id in IdSet(t.nodes);
    }
    PairwiseConcat(DifferentIds, s.nodes, t.nodes);
    forall e, f | e in s.edges && f in t.edges ensures DifferentInputs(e, f) {
      assert e.target in IdSet(s.nodes) && f.target in IdSet(t.nodes);
    }
    PairwiseConcat(DifferentInputs, s.edges, t.edges);
    assert IdSet(s.nodes + t.nodes) == IdSet(s.nodes) + IdSet(t.nodes);
  }

  lemma PasteKeeps(e: Editor)
    requires AllWellFormed(e)
    ensures AllWellFormed(PasteClipboard(e))
  {
    if e.clipboard.Some? && e.clipboard.value.nodes != [] {
      var clipboard, existing := e.clipboard.value, IdSet(e.nodes);
      var pasted, shown := Paste(clipboard, existing), MarkSelected(e.nodes, false);
      RecordKeepsWellFormed(e);
      PairwiseIdsAreDistinct(clipboard.nodes);
      PastedNodesAreCopies(clipboard, existing);
      PastedEdgesAreCopies(clipboard, existing);
      PastedInputsDiffer(clipboard, existing);
      PairwiseIdsAreDistinct(pasted.nodes);
      SameIdsStayWellFormed(Now(e), shown);
      SideBySide(Snapshot(shown, e.edges), pasted);
      assert Now(PasteClipboard(e)) == Snapshot(shown + pasted.nodes, e.edges + pasted.edges);
    }
  }

  lemma AddKeeps(e: Editor, node: EditorNode)
    requires AllWellFormed(e) && node.id !in IdSet(e.nodes)
    ensures AllWellFormed(AddNode(e, node))
  {
    RecordKeepsWellFormed(e);
    var shown, single := MarkSelected(e.nodes, false), Snapshot([node.(selected := true)], []);
    SameIdsStayWellFormed(Now(e), shown);
    SideBySide(Snapshot(shown, e.edges), single);
    assert Now(AddNode(e, node)) == Snapshot(shown + single.nodes, e.edges + []);
  }

  lemma UndoAndRedoKeep(e: Editor)
    requires AllWellFormed(e)
    ensures AllWellFormed(UndoEdit(e)) && AllWellFormed(RedoEdit(e))
  {
    if e.history.past != [] {
      var s := Last(e.history.past);
      assert s in e.history.past && Snapshot(s.nodes, s.edges) == s;
    }
    if e.history.future != [] {
      var s := e.history.future[0];
      assert s in e.history.future && Snapshot(s.nodes, s.edges) == s;
    }
  }

  lemma ActKeepsWellFormed(e: Editor, a: Action)
    requires AllWellFormed(e) && Legal(e, a)
    ensures AllWellFormed(Act(e, a))
  {
    match a {
      case Connecting(source, sourceHandle, target, targetHandle) =>
        ConnectKeeps(e, source, sourceHandle, target, targetHandle);
      case DeletingSelected => if e.selected.Some? { WithoutKeeps(e, {e.selected.value}); }
      case DeletingSteps(doomed) => WithoutKeeps(e, doomed);
      case DeletingConnection(edgeId) => DeleteConnectionKeeps(e, edgeId);
      case Copying => CopyKeeps(e);
      case Pasting => PasteKeeps(e);
      case Duplicating =>
        CopyKeeps(e);
        PasteKeeps(CopySelection(e));
      case UndoingEdit => UndoAndRedoKeep(e);
      case RedoingEdit => UndoAndRedoKeep(e);
      case Selecting(_) =>
      case SelectingAll => SameIdsStayWellFormed(Now(e), MarkSelected(e.nodes, true));
      case Adding(node) => AddKeeps(e, node);
      case Configuring(id, data) => SameIdsStayWellFormed(Now(e), Configure(e, id, data).nodes);
      case Loading(_) =>
    }
  }

  /** What every action keeps: well-formedness, if the surroundings did their part, and the history's limit. */
  ghost predicate Keeps(e: Editor, a: Action, after: Editor) {
    && (AllWellFormed(e) && Legal(e, a) ==> AllWellFormed(after))
    && (WithinLimit(e.history) ==> WithinLimit(after.history))
  }

  lemma ActKeeps(e: Editor, a: Action)
    ensures Keeps(e, a, Act(e, a))
  {
    if AllWellFormed(e) && Legal(e, a) {
      ActKeepsWellFormed(e, a);
    }
    if WithinLimit(e.history) {
      ActStaysWithinLimit(e, a);
    }
  }

  // -- sessions ----------------------------------------------------------------------------------

  function Session(e: Editor, actions: seq<Action>): Editor {
    if actions == [] then e else Act(Session(e, Front(actions)), Last(actions))
  }

  ghost predicate LegalSession(e: Editor, actions: seq<Action>) {
    actions == [] || (LegalSession(e, Front(actions)) && Legal(Session(e, Front(actions)), Last(actions)))
  }

  const BlankEditor: Editor := Editor([], [], None, Empty(), None)

  /** Whatever is done, in whatever order, the canvas stays one the runtime would accept: distinct ids,
      no dangling edge, one edge per input; and so does everything that undo, redo or paste could bring
      back. */
  lemma {:induction false} EverySessionStaysWellFormed(actions: seq<Action>)
    requires LegalSession(BlankEditor, actions)
    ensures AllWellFormed(Session(BlankEditor, actions))
  {
    if actions != [] {
      EverySessionStaysWellFormed(Front(actions));
      ActKeepsWellFormed(Session(BlankEditor, Front(actions)), Last(actions));
    }
  }

  lemma {:induction false} HistoryStaysWithinLimit(actions: seq<Action>)
    ensures WithinLimit(Session(BlankEditor, actions).history)
  {
    if actions != [] {
      HistoryStaysWithinLimit(Front(actions));
      ActStaysWithinLimit(Session(BlankEditor, Front(actions)), Last(actions));
    }
  }

  lemma ActStaysWithinLimit(e: Editor, a: Action)
    requires WithinLimit(e.history)
    ensures WithinLimit(Act(e, a).history)
  {
  }

  /** The actions a person would expect undo to take back. */
  predicate Edits(a: Action) {
    a.Connecting? || a.DeletingSelected? || a.DeletingSteps? || a.DeletingConnection? || a.Pasting? || a.Adding?
  }

  /** Undo takes back an edit completely, nodes, edges and all; redo then makes it again exactly. An edit
      that had nothing to do records nothing. */
  lemma UndoTakesBackAnEdit(actions: seq<Action>, a: Action)
    requires Edits(a)
    ensures var e := Session(BlankEditor, actions);
            var edited := Act(e, a);
            edited == e ||
            (&& Now(UndoEdit(edited)) == Now(e)
             && RedoEdit(UndoEdit(edited)) == edited)
  {
    var e := Session(BlankEditor, actions);
    var edited := Act(e, a);
    HistoryStaysWithinLimit(actions);
    ActStaysWithinLimit(e, a);
    if edited != e {
      RecordedIsUndone(e, edited);
    }
  }

  lemma RecordedIsUndone(e: Editor, edited: Editor)
    requires WithinLimit(edited.history) && edited.history == Record(e.history, Now(e))
    ensures Now(UndoEdit(edited)) == Now(e) && RedoEdit(UndoEdit(edited)) == edited
  {
    UndoThenRedo(H.Session(edited.history, Now(edited)));
  }
}
