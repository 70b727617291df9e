/** The editor's store: one object, every action a change to its fields, proved against `Canvas`. */
module EditorStore {
  import opened Common
  import opened Clipboard
  import opened Canvas
  import opened H = History

  class Store {
    var nodes: seq<EditorNode>
    var edges: seq<Edge>
    var selectedNodeId: Option<NodeId>
    var history: History<Snapshot>
    var clipboard: Option<Snapshot>

    ghost function State(): Editor
      reads this
    {
      Editor(nodes, edges, selectedNodeId, history, clipboard)
    }

    constructor ()
      ensures State() == BlankEditor && AllWellFormed(State()) && H.WithinLimit(State().history)
    {
      nodes, edges, selectedNodeId, history, clipboard := [], [], None, Empty(), None;
    }

    method Connect(source: NodeId, sourceHandle: string, target: NodeId, targetHandle: string)
      modifies this
      ensures State() == Act(old(State()), Connecting(source, sourceHandle, target, targetHandle))
      ensures Keeps(old(State()), Connecting(source, sourceHandle, target, targetHandle), State())
    {
      ActKeeps(State(), Connecting(source, sourceHandle, target, targetHandle));
      var withoutExisting := Filter((e: Edge) => !SameInput(e, target, targetHandle), edges);
      history := Record(history, Snapshot(nodes, edges));
      edges := withoutExisting + [Wire(source, sourceHandle, target, targetHandle)];
    }

    method DeleteSelected()
      modifies this
      ensures State() == Act(old(State()), DeletingSelected)
      ensures Keeps(old(State()), DeletingSelected, State())
    {
      ActKeeps(State(), DeletingSelected);
      if selectedNodeId.None? {
        return;
      }
      Remove({selectedNodeId.value});
      selectedNodeId := None;
    }

    method Remove(doomed: set<NodeId>)
      modifies this
      ensures State() == Without(old(State()), doomed)
    {
      history := Record(history, Snapshot(nodes, edges));
      nodes := Filter((n: EditorNode) => n.id !in doomed, nodes);
      edges := Filter((e: Edge) => e.source !in doomed && e.target !in doomed, edges);
    }

    method DeleteSteps(doomed: set<NodeId>)
      modifies this
      ensures State() == Act(old(State()), DeletingSteps(doomed))
      ensures Keeps(old(State()), DeletingSteps(doomed), State())
    {
      ActKeeps(State(), DeletingSteps(doomed));
      if !exists n :: n in nodes && n.id in doomed {
        return;
      }
      Remove(doomed);
      if selectedNodeId.Some? && selectedNodeId.value in doomed {
        selectedNodeId := None;
      }
    }

    method DeleteStep(nodeId: NodeId)
      modifies this
      ensures State() == Act(old(State()), DeletingSteps({nodeId}))
      ensures Keeps(old(State()), DeletingSteps({nodeId}), State())
    {
      ActKeeps(State(), DeletingSteps({nodeId}));
      DeleteSteps({nodeId});
    }

    method DeleteConnection(edgeId: string)
      modifies this
      ensures State() == Act(old(State()), DeletingConnection(edgeId))
      ensures Keeps(old(State()), DeletingConnection(edgeId), State())
    {
      ActKeeps(State(), DeletingConnection(edgeId));
      if !exists e :: e in edges && e.id == edgeId {
        return;
      }
      history := Record(history, Snapshot(nodes, edges));
      edges := Filter((e: Edge) => e.id != edgeId, edges);
    }

    method Undo()
      modifies this
      ensures State() == Act(old(State()), UndoingEdit)
      ensures Keeps(old(State()), UndoingEdit, State())
    {
      ActKeeps(State(), UndoingEdit);
      var step := H.Undo(history, Snapshot(nodes, edges));
      if step.None? {
        return;
      }
      history, nodes, edges := step.value.history, step.value.snapshot.nodes, step.value.snapshot.edges;
    }

    method Redo()
      modifies this
      ensures State() == Act(old(State()), RedoingEdit)
      ensures Keeps(old(State()), RedoingEdit, State())
    {
      ActKeeps(State(), RedoingEdit);
      var step := H.Redo(history, Snapshot(nodes, edges));
      if step.None? {
        return;
      }
      history, nodes, edges := step.value.history, step.value.snapshot.nodes, step.value.snapshot.edges;
    }

    method CopySelection()
      modifies this`clipboard
      ensures State() == Act(old(State()), Copying)
      ensures Keeps(old(State()), Copying, State())
    {
      ActKeeps(State(), Copying);
      var selected := set n | n in nodes && n.selected :: n.id;
      if selectedNodeId.Some? {
        selected := selected + {selectedNodeId.value};
      }
      assert selected == SelectedIds(State());
      if selected == {} {
        return;
      }
      clipboard := Some(Cut(nodes, edges, selected));
    }

    method PasteClipboard()
      modifies this
      ensures State() == Act(old(State()), Pasting)
      ensures Keeps(old(State()), Pasting, State())
    {
      ActKeeps(State(), Pasting);
      if clipboard.None? || clipboard.value.nodes == [] {
        return;
      }
      var pasted, ids := PasteInto(clipboard.value, IdSet(nodes));
      history := Record(history, Snapshot(nodes, edges));
      nodes := MarkSelected(nodes, false) + pasted.nodes;
      edges := edges + pasted.edges;
      selectedNodeId := if ids != [] then Some(ids[0]) else None;
    }

    method DuplicateSelection()
      modifies this
      ensures State() == Act(old(State()), Duplicating)
      ensures Keeps(old(State()), Duplicating, State())
    {
      ActKeeps(State(), Duplicating);
      CopySelection();
      PasteClipboard();
    }

    method Select(id: Option<NodeId>)
      modifies this`selectedNodeId
      ensures State() == Act(old(State()), Selecting(id))
      ensures Keeps(old(State()), Selecting(id), State())
    {
      ActKeeps(State(), Selecting(id));
      selectedNodeId := id;
    }

    method SelectAll()
      modifies this`nodes
      ensures State() == Act(old(State()), SelectingAll)
      ensures Keeps(old(State()), SelectingAll, State())
    {
      ActKeeps(State(), SelectingAll);
      nodes := MarkSelected(nodes, true);
    }

    /** The node already carries an id nothing on the canvas has. */
    method AddNode(node: EditorNode)
      modifies this
      ensures State() == Act(old(State()), Adding(node))
      ensures Keeps(old(State()), Adding(node), State())
    {
      ActKeeps(State(), Adding(node));
      history := Record(history, Snapshot(nodes, edges));
      nodes := MarkSelected(nodes, false) + [node.(selected := true)];
      selectedNodeId := Some(node.id);
    }

    method Load(snapshot: Snapshot)
      modifies this
      ensures State() == Act(old(State()), Loading(snapshot))
      ensures Keeps(old(State()), Loading(snapshot), State())
    {
      ActKeeps(State(), Loading(snapshot));
      nodes, edges, selectedNodeId, history := snapshot.nodes, snapshot.edges, None, Empty();
    }
  }
}
