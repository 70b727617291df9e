/** What each action on the canvas does, node by node and edge by edge: what it adds, what it takes away,
    and that it leaves everything else as it was. */
module CanvasEffects {
  import opened Common
  import opened Clipboard
  import opened Canvas
  import opened H = History

  /** Filtering keeps every occurrence of what it keeps. */
  lemma {:induction false} FilterCounts<T(!new)>(keep: T -> bool, s: seq<T>, x: T)
    ensures multiset(Filter(keep, s))[x] == if keep(x) then multiset(s)[x] else 0
  {
    if s != [] {
      FilterCounts(keep, s[1..], x);
      assert s == [s[0]] + s[1..];
      assert multiset(s)[x] == multiset([s[0]])[x] + multiset(s[1..])[x];
    }
  }

  /** What is left stands in the order it stood in. */
  ghost predicate Subsequence<T(!new)>(after: seq<T>, before: seq<T>) {
    after == [] ||
    (before != [] && (|| (after[0] == before[0] && Subsequence(after[1..], before[1..]))
                      || Subsequence(after, before[1..])))
  }

  lemma {:induction false} AllIsSubsequence<T(!new)>(s: seq<T>)
    ensures Subsequence(s, s)
  {
    if s != [] {
      AllIsSubsequence(s[1..]);
    }
  }

  lemma {:induction false} FilterIsSubsequence<T(!new)>(keep: T -> bool, s: seq<T>)
    ensures Subsequence(Filter(keep, s), s)
  {
    if s != [] {
      FilterIsSubsequence(keep, s[1..]);
      if keep(s[0]) {
        assert Filter(keep, s)[1..] == Filter(keep, s[1..]);
      } else {
        assert Filter(keep, s) == Filter(keep, s[1..]);
      }
    }
  }

  /** What is left when only `keep` stays: all of it, as often and in the order it was there, and nothing else. */
  ghost predicate KeepsExactly<T(!new)>(keep: T -> bool, before: seq<T>, after: seq<T>) {
    && Subsequence(after, before)
    && forall x :: multiset(after)[x] == if keep(x) then multiset(before)[x] else 0
  }

  lemma FilterKeepsExactly<T(!new)>(keep: T -> bool, s: seq<T>)
    ensures KeepsExactly(keep, s, Filter(keep, s))
  {
    FilterIsSubsequence(keep, s);
    forall x ensures multiset(Filter(keep, s))[x] == if keep(x) then multiset(s)[x] else 0 {
      FilterCounts(keep, s, x);
    }
  }

  lemma NothingToDrop<T(!new)>(keep: T -> bool, s: seq<T>)
    requires forall x :: x in s ==> keep(x)
    ensures KeepsExactly(keep, s, s)
  {
    AllIsSubsequence(s);
    forall x ensures multiset(s)[x] == if keep(x) then multiset(s)[x] else 0 {
      if x in multiset(s) {
        assert x in s;
      }
    }
  }

  /** Connecting puts the new wire in and takes away only what fed that input before. */
  lemma ConnectReplaces(e: Editor, source: NodeId, sourceHandle: string, target: NodeId, targetHandle: string)
    ensures var after := Connect(e, source, sourceHandle, target, targetHandle);
            && after == e.(edges := after.edges, history := after.history) && after.edges != []
            && KeepsExactly((f: Edge) => f.target != target || f.targetHandle != targetHandle, e.edges,
                            Front(after.edges))
            && (var wire := Last(after.edges);
                && wire.source == source && wire.sourceHandle == sourceHandle
                && wire.target == target && wire.targetHandle == targetHandle && !wire.selected)
            && (forall f :: f in after.edges && f.target == target && f.targetHandle == targetHandle
                            ==> f == Last(after.edges))
  {
    var keep := (f: Edge) => f.target != target || f.targetHandle != targetHandle;
    var asked := (f: Edge) => !SameInput(f, target, targetHandle);
    FilterAlike(keep, asked, e.edges);
    FilterKeepsExactly(keep, e.edges);
    var after := Connect(e, source, sourceHandle, target, targetHandle);
    assert Front(after.edges) == Filter(asked, e.edges);
    forall f | f in after.edges && f != Last(after.edges) ensures keep(f) {
      assert f in Front(after.edges);
    }
  }

  /** Deleting steps takes away exactly those steps and the edges at them, and what was selected if it is one of
      them; naming none of the canvas's steps does nothing at all. */
  lemma DeletionTakesExactly(e: Editor, doomed: set<NodeId>)
    ensures var after := DeleteSteps(e, doomed);
            && KeepsExactly((n: EditorNode) => n.id !in doomed, e.nodes, after.nodes)
            && (IdSet(e.nodes) * doomed != {} ==>
                  && KeepsExactly((f: Edge) => f.source !in doomed && f.target !in doomed, e.edges, after.edges)
                  && after.clipboard == e.clipboard
                  && (e.selected.Some? && e.selected.value !in doomed ==> after.selected == e.selected)
                  && (e.selected.None? || e.selected.value in doomed ==> after.selected.None?))
            && (IdSet(e.nodes) * doomed == {} ==> after == e)
  {
    FilterKeepsExactly((n: EditorNode) => n.id !in doomed, e.nodes);
    FilterKeepsExactly((f: Edge) => f.source !in doomed && f.target !in doomed, e.edges);
    if n :| n in e.nodes && n.id in doomed {
      assert n.id in IdSet(e.nodes) * doomed;
    } else {
      assert IdSet(e.nodes) * doomed == {};
      NothingToDrop((n: EditorNode) => n.id !in doomed, e.nodes);
    }
  }

  lemma {:induction false} FilterKeepsAll<T(!new)>(keep: T -> bool, s: seq<T>)
    requires forall x :: x in s ==> keep(x)
    ensures Filter(keep, s) == s
  {
    if s != [] {
      assert keep(s[0]) && forall x :: x in s[1..] ==> x in s;
      FilterKeepsAll(keep, s[1..]);
    }
  }

  lemma {:induction false} FilterDropsAll<T(!new)>(keep: T -> bool, s: seq<T>)
    requires forall x :: x in s ==> !keep(x)
    ensures Filter(keep, s) == []
  {
    if s != [] {
      assert !keep(s[0]) && forall x :: x in s[1..] ==> x in s;
      FilterDropsAll(keep, s[1..]);
    }
  }

  /** Deleting the selected step takes that step and the edges at it, leaves nothing selected, and records the
      canvas it started from: all that whether or not the selected step is still there. */
  lemma DeleteSelectedTakesTheSelected(e: Editor)
    requires e.selected.Some?
    ensures var after, gone := DeleteSelected(e), {e.selected.value};
            && KeepsExactly((n: EditorNode) => n.id !in gone, e.nodes, after.nodes)
            && KeepsExactly((f: Edge) => f.source !in gone && f.target !in gone, e.edges, after.edges)
            && after.selected.None? && after.clipboard == e.clipboard
            && after.history.past != [] && Last(after.history.past) == Now(e) && after.history.future == []
    ensures e.selected.value in IdSet(e.nodes) ==> DeleteSelected(e) == DeleteSteps(e, {e.selected.value})
  {
    var gone := {e.selected.value};
    FilterKeepsExactly((n: EditorNode) => n.id !in gone, e.nodes);
    FilterKeepsExactly((f: Edge) => f.source !in gone && f.target !in gone, e.edges);
  }

  /** So where the selected step is gone already, the canvas stays as it is, and only what could be redone is
      forfeited and one more undo is needed. */
  lemma DeletingWhatIsGone(e: Editor)
    requires e.selected.Some? && e.selected.value !in IdSet(e.nodes) && EndsPresent(Now(e))
    ensures var after := DeleteSelected(e);
            && Now(after) == Now(e) && after.history == H.Record(e.history, Now(e))
            && Now(UndoEdit(after)) == Now(e)
    ensures DeleteSteps(e, {e.selected.value}) == e
  {
    var gone := {e.selected.value};
    forall n | n in e.nodes ensures n.id !in gone {
      assert n.id in IdSet(e.nodes);
    }
    FilterKeepsAll((n: EditorNode) => n.id !in gone, e.nodes);
    FilterKeepsAll((f: Edge) => f.source !in gone && f.target !in gone, e.edges);
  }

  lemma DeleteConnectionTakesExactly(e: Editor, edgeId: string)
    ensures var after := DeleteConnection(e, edgeId);
            && after == e.(edges := after.edges, history := after.history)
            && KeepsExactly((f: Edge) => f.id != edgeId, e.edges, after.edges)
            && (after.history == e.history <== forall f :: f in e.edges ==> f.id != edgeId)
  {
    FilterKeepsExactly((f: Edge) => f.id != edgeId, e.edges);
    if forall f :: f in e.edges ==> f.id != edgeId {
      NothingToDrop((f: Edge) => f.id != edgeId, e.edges);
    }
  }

  /** Marked on the canvas, or the one step that is open for editing. */
  ghost predicate Chosen(e: Editor, id: NodeId) {
    e.selected == Some(id) || exists n :: n in e.nodes && n.selected && n.id == id
  }

  lemma SelectedAreChosen(e: Editor)
    ensures forall id :: id in SelectedIds(e) <==> Chosen(e, id)
  {
  }

  /** Copying takes the chosen nodes and the edges with both ends among them, and touches nothing else; with
      nothing chosen it does nothing, and what was copied before stays. */
  lemma CopyTakesExactly(e: Editor, ids: set<NodeId>)
    requires forall id :: id in ids <==> Chosen(e, id)
    ensures ids != {} ==>
              var after := CopySelection(e);
              && after == e.(clipboard := after.clipboard) && after.clipboard.Some?
              && KeepsExactly((n: EditorNode) => n.id in ids, e.nodes, after.clipboard.value.nodes)
              && KeepsExactly((f: Edge) => f.source in ids && f.target in ids, e.edges, after.clipboard.value.edges)
    ensures ids == {} ==> CopySelection(e) == e
  {
    SelectedAreChosen(e);
    assert ids == SelectedIds(e);
    FilterKeepsExactly((n: EditorNode) => n.id in ids, e.nodes);
    FilterKeepsExactly((f: Edge) => f.source in ids && f.target in ids, e.edges);
  }

  /** Pasting adds the copies behind what was there; of that it changes only which nodes are selected, and
      the copies are what is selected then. */
  lemma PasteAdds(e: Editor)
    requires e.clipboard.Some? && e.clipboard.value.nodes != []
    ensures var after, copy := PasteClipboard(e), Paste(e.clipboard.value, IdSet(e.nodes));
            && after.nodes == MarkSelected(e.nodes, false) + copy.nodes && after.edges == e.edges + copy.edges
            && after.clipboard == e.clipboard
            && after.selected == Some(after.nodes[|e.nodes|].id)
            && (forall i :: 0 <= i < |after.nodes| ==> (after.nodes[i].selected <==> i >= |e.nodes|))
  {
    var after, copy := PasteClipboard(e), Paste(e.clipboard.value, IdSet(e.nodes));
    forall i | 0 <= i < |after.nodes| ensures after.nodes[i].selected <==> i >= |e.nodes| {
      if i < |e.nodes| {
        assert after.nodes[i] == MarkSelected(e.nodes, false)[i];
      } else {
        assert after.nodes[i] == copy.nodes[i - |e.nodes|];
      }
    }
  }

  lemma AddedStandsAlone(e: Editor, node: EditorNode)
    requires AllWellFormed(e) && node.id !in IdSet(e.nodes)
    ensures SelectedIds(AddNode(e, node)) == {node.id}
    ensures forall n :: n in MarkSelected(e.nodes, false) ==> n.id !in {node.id}
    ensures forall f :: f in e.edges ==> f.source !in {node.id} && f.target !in {node.id}
  {
    var marked, added := MarkSelected(e.nodes, false), node.(selected := true);
    SameIdsStayWellFormed(Now(e), marked);
    forall n | n in marked ensures n.id !in {node.id} && !n.selected {
      assert n.id in IdSet(marked);
    }
    var after := AddNode(e, node);
    assert Last(after.nodes) == added;
    assert after.nodes == marked + [added];
  }

  /** What is chosen out of nodes of which only the last is to be chosen, or only the last is not. */
  lemma OnlyTheLast<T(!new)>(keep: T -> bool, others: T -> bool, s: seq<T>, x: T)
    requires keep(x) && !others(x) && forall y :: y in s ==> !keep(y) && others(y)
    ensures Filter(keep, s + [x]) == [x] && Filter(others, s + [x]) == s
  {
    FilterOfConcat(keep, s, [x]);
    FilterDropsAll(keep, s);
    FilterKeepsAll(keep, [x]);
    FilterOfConcat(others, s, [x]);
    FilterKeepsAll(others, s);
    FilterDropsAll(others, [x]);
  }

  /** A node that was just added is all that copying takes, and deleting the selection takes exactly it away
      again: the canvas is what it was, with nothing marked. */
  lemma AddedThenTaken(e: Editor, node: EditorNode)
    requires AllWellFormed(e) && node.id !in IdSet(e.nodes)
    ensures CopySelection(AddNode(e, node)).clipboard == Some(Snapshot([node.(selected := true)], []))
    ensures Now(DeleteSelected(AddNode(e, node))) == Snapshot(MarkSelected(e.nodes, false), e.edges)
  {
    var ids, marked := {node.id}, MarkSelected(e.nodes, false);
    AddedStandsAlone(e, node);
    OnlyTheLast((n: EditorNode) => n.id in ids, (n: EditorNode) => n.id !in ids, marked, node.(selected := true));
    FilterDropsAll((f: Edge) => f.source in ids && f.target in ids, e.edges);
    FilterKeepsAll((f: Edge) => f.source !in ids && f.target !in ids, e.edges);
  }

  /** What the id of a connection says about it: its parts written one behind the other. */
  function Spelled(source: NodeId, sourceHandle: string, target: NodeId, targetHandle: string): string {
    source + sourceHandle + "-" + target + targetHandle
  }

  /** Two connections have one id if and only if their parts read the same when written so. */
  lemma SameWireIdExactly(source: NodeId, sourceHandle: string, target: NodeId, targetHandle: string,
                          source': NodeId, sourceHandle': string, target': NodeId, targetHandle': string)
    ensures WireId(source, sourceHandle, target, targetHandle) == WireId(source', sourceHandle', target', targetHandle')
        <==> Spelled(source, sourceHandle, target, targetHandle)
             == Spelled(source', sourceHandle', target', targetHandle')
    ensures WireId(source, sourceHandle, target, targetHandle)
         == "xy-edge__" + Spelled(source, sourceHandle, target, targetHandle)
  {
    var x := Spelled(source, sourceHandle, target, targetHandle);
    var y := Spelled(source', sourceHandle', target', targetHandle');
    var prefix := "xy-edge__";
    assert WireId(source, sourceHandle, target, targetHandle) == prefix + x;
    assert WireId(source', sourceHandle', target', targetHandle') == prefix + y;
    assert (prefix + x)[|prefix|..] == x && (prefix + y)[|prefix|..] == y;
  }

  /** Of two connections to different inputs, deleting the one deletes the other too if and only if they are
      spelled alike: the id is not one-to-one. */
  lemma SameIdGoesTogether(e: Editor, source: NodeId, sourceHandle: string, target: NodeId, targetHandle: string,
                           source': NodeId, sourceHandle': string, target': NodeId, targetHandle': string)
    requires target != target' || targetHandle != targetHandle'
    ensures var one := Wire(source, sourceHandle, target, targetHandle);
            var two := Wire(source', sourceHandle', target', targetHandle');
            var first := Connect(e, source, sourceHandle, target, targetHandle);
            var after := Connect(first, source', sourceHandle', target', targetHandle');
            && one in after.edges && two in after.edges && one !in DeleteConnection(after, one.id).edges
            && (two !in DeleteConnection(after, one.id).edges
                <==> Spelled(source, sourceHandle, target, targetHandle)
                     == Spelled(source', sourceHandle', target', targetHandle'))
  {
    var one := Wire(source, sourceHandle, target, targetHandle);
    SameWireIdExactly(source, sourceHandle, target, targetHandle, source', sourceHandle', target', targetHandle');
    var first := Connect(e, source, sourceHandle, target, targetHandle);
    assert one == Last(first.edges) && one in first.edges;
    assert !SameInput(one, target', targetHandle');
  }

  /** And it happens, from one and the same output: the handle's first letter on the one, the step's last on the
      other. */
  lemma SpelledAlike(source: NodeId, sourceHandle: string, target: NodeId, c: char, targetHandle: string)
    ensures Spelled(source, sourceHandle, target + [c], targetHandle)
         == Spelled(source, sourceHandle, target, [c] + targetHandle)
    ensures target + [c] != target
  {
    var front := source + sourceHandle + "-";
    assert front + (target + [c]) + targetHandle == front + target + ([c] + targetHandle);
    assert |target + [c]| == |target| + 1;
  }

  /** Every action that recorded put the canvas it started from on top of the past, and nothing is left to
      redo. */
  lemma EditsRecordWhatWasThere(e: Editor, a: Action)
    requires Edits(a) && Act(e, a) != e
    ensures var history := Act(e, a).history;
            history.past != [] && Last(history.past) == Now(e) && history.future == []
  {
  }

  // -- what the other actions touch ---------------------------------------------------------------------

  /** Adding puts the node behind all the others and marks it alone; undoing it takes it away again. */
  lemma AddingAppends(e: Editor, node: EditorNode)
    requires WithinLimit(e.history)
    ensures var after := AddNode(e, node);
            && |after.nodes| == |e.nodes| + 1 && after.edges == e.edges && after.clipboard == e.clipboard
            && after.selected == Some(node.id) && Last(after.nodes) == node.(selected := true)
            && (forall i :: 0 <= i < |e.nodes| ==> after.nodes[i] == e.nodes[i].(selected := false))
            && Now(UndoEdit(after)) == Now(e)
  {
    var after := AddNode(e, node);
    assert forall i :: 0 <= i < |e.nodes| ==> after.nodes[i] == MarkSelected(e.nodes, false)[i];
    RecordedIsUndone(e, after);
  }

  /** A change of settings reaches the data of exactly the nodes of that name. It is not recorded: undo skips it. */
  lemma ConfiguringTouchesOne(e: Editor, id: NodeId, data: NodeData)
    ensures var after := Configure(e, id, data);
            && after == e.(nodes := after.nodes) && |after.nodes| == |e.nodes|
            && (forall i :: 0 <= i < |e.nodes| ==>
                  && after.nodes[i] == e.nodes[i].(data := after.nodes[i].data)
                  && after.nodes[i].data == if e.nodes[i].id == id then data else e.nodes[i].data)
            && Undo(after.history, Now(after)).Some? == Undo(e.history, Now(e)).Some?
            && (e.history.past != [] ==> Now(UndoEdit(after)) == Now(UndoEdit(e)))
  {
  }

  /** Loading forgets what could be undone and what was selected, and keeps the clipboard: what was copied in one
      project can be pasted in the next. */
  lemma LoadingStartsOver(e: Editor, s: Snapshot)
    ensures var after := Load(e, s);
            && Now(after) == s && after.selected.None? && after.clipboard == e.clipboard
            && UndoEdit(after) == after && RedoEdit(after) == after
  {
  }

  /** Selecting changes what is selected and nothing else, and neither way of selecting can be undone. */
  lemma SelectingOnlySelects(e: Editor, selection: Option<NodeId>)
    ensures var one, all := Act(e, Selecting(selection)), Act(e, SelectingAll);
            && one.selected == selection && one == e.(selected := one.selected)
            && all == e.(nodes := all.nodes) && |all.nodes| == |e.nodes|
            && (forall i :: 0 <= i < |e.nodes| ==> all.nodes[i] == e.nodes[i].(selected := true))
            && (forall id :: Chosen(all, id) <==> id in IdSet(e.nodes) || e.selected == Some(id))
  {
    var all := Act(e, SelectingAll);
    forall n | n in e.nodes ensures n.(selected := true) in all.nodes {
      var i :| 0 <= i < |e.nodes| && e.nodes[i] == n;
      assert all.nodes[i] == n.(selected := true);
    }
    forall n | n in all.nodes ensures n.id in IdSet(e.nodes) {
      var i :| 0 <= i < |e.nodes| && all.nodes[i] == n;
      assert e.nodes[i] in e.nodes;
    }
  }

  /** Undo and redo put nodes and edges back; what is selected and what was copied they leave alone, and with
      nothing to take back they do nothing. */
  lemma UndoTouchesNodesAndEdges(e: Editor)
    ensures UndoEdit(e) == e.(nodes := UndoEdit(e).nodes, edges := UndoEdit(e).edges, history := UndoEdit(e).history)
    ensures RedoEdit(e) == e.(nodes := RedoEdit(e).nodes, edges := RedoEdit(e).edges, history := RedoEdit(e).history)
    ensures e.history.past == [] ==> UndoEdit(e) == e
    ensures e.history.future == [] ==> RedoEdit(e) == e
    ensures e.history.past != [] ==> Now(UndoEdit(e)) == Last(e.history.past)
    ensures e.history.future != [] ==> Now(RedoEdit(e)) == e.history.future[0]
  {
  }

  /** Duplicating is copying and pasting: with anything chosen, the copies come from the canvas and not from what
      was copied before. */
  lemma DuplicatingPastesTheChosen(e: Editor)
    requires SelectedIds(e) != {}
    ensures Act(e, Duplicating) == Act(Act(e, Copying), Pasting)
    ensures Act(e, Duplicating).clipboard == Some(Cut(e.nodes, e.edges, SelectedIds(e)))
  {
  }
}
