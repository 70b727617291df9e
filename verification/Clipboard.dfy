/** Cutting out a selection and pasting it under new names. */
module Clipboard {
  import opened Common
  import Decimal

  type NodeId = string

  datatype NodeData = NodeData(componentRef: string, config: map<string, string>, title: Option<string>, disabled: bool)

  datatype EditorNode = EditorNode(id: NodeId, x: real, y: real, selected: bool, data: NodeData)

  datatype Edge = Edge(id: string, source: NodeId, sourceHandle: string, target: NodeId, targetHandle: string,
                       selected: bool)

  datatype Snapshot = Snapshot(nodes: seq<EditorNode>, edges: seq<Edge>)

  const OFFSET: real := 32.0

  function Ids(nodes: seq<EditorNode>): (ids: seq<NodeId>)
    ensures |ids| == |nodes| && forall i :: 0 <= i < |nodes| ==> ids[i] == nodes[i].id
  {
    seq(|nodes|, i requires 0 <= i < |nodes| => nodes[i].id)
  }

  function IdSet(nodes: seq<EditorNode>): set<NodeId> {
    set n | n in nodes :: n.id
  }

  /** A selection, with the edges both of whose ends are in it. */
  function Cut(nodes: seq<EditorNode>, edges: seq<Edge>, selected: set<NodeId>): Snapshot {
    Snapshot(Filter((n: EditorNode) => n.id in selected, nodes),
             Filter((e: Edge) => e.source in selected && e.target in selected, edges))
  }

  // -- finding a free name ---------------------------------------------------------------------

  /** `id-copy`, `id-copy2`, `id-copy3`, and so on. */
  function Candidate(id: NodeId, n: nat): NodeId
    requires n >= 1
  {
    id + "-copy" + if n == 1 then "" else Decimal.Show(n)
  }

  lemma CandidatesDiffer(id: NodeId, m: nat, n: nat)
    requires 1 <= m < n
    ensures Candidate(id, m) != Candidate(id, n)
  {
    var stem := id + "-copy";
    assert Candidate(id, n)[|stem|..] == Decimal.Show(n);
    Decimal.ShowThenRead(n);
    Decimal.ShowThenRead(m);
    assert Candidate(id, m)[|stem|..] == if m == 1 then "" else Decimal.Show(m);
    if Decimal.Show(m) == Decimal.Show(n) {
      Decimal.ShowInjective(m, n);
    }
  }

  /** The candidates tried before the `n`-th. */
  function Tried(id: NodeId, n: nat): set<NodeId>
    requires n >= 1
  {
    set k | 1 <= k < n :: Candidate(id, k)
  }

  lemma OneMoreTried(id: NodeId, taken: set<NodeId>, n: nat)
    requires n >= 1 && Candidate(id, n) in taken
    ensures |taken - Tried(id, n + 1)| < |taken - Tried(id, n)|
  {
    var c := Candidate(id, n);
    forall k | 1 <= k < n ensures Candidate(id, k) != c {
      CandidatesDiffer(id, k, n);
    }
    assert c in taken - Tried(id, n);
    assert Tried(id, n + 1) == Tried(id, n) + {c};
    assert taken - Tried(id, n + 1) == (taken - Tried(id, n)) - {c};
  }

  /** The first free candidate from the `n`-th on. It exists because only finitely many names are
      taken and every candidate is a new one. */
  function FirstFree(id: NodeId, taken: set<NodeId>, n: nat): (c: NodeId)
    requires n >= 1
    ensures c !in taken
    decreases |taken - Tried(id, n)|
  {
    if Candidate(id, n) in taken then
      OneMoreTried(id, taken, n);
      FirstFree(id, taken, n + 1)
    else Candidate(id, n)
  }

  // -- renaming ----------------------------------------------------------------------------------

  datatype Renamed = Renamed(names: map<NodeId, NodeId>, taken: set<NodeId>)

  /** One name after another; what is taken grows by each. The names given so far count as taken under
      their old spelling too. */
  function RenameAll(ids: seq<NodeId>, existing: set<NodeId>): Renamed {
    if ids == [] then Renamed(map[], existing)
    else
      var before := RenameAll(Front(ids), existing);
      var given := FirstFree(Last(ids), before.taken + before.names.Keys, 1);
      Renamed(before.names[Last(ids) := given], before.taken + {given})
  }

  function NewName(names: map<NodeId, NodeId>, id: NodeId): NodeId {
    if id in names then names[id] else id
  }

  function PastedNode(names: map<NodeId, NodeId>, node: EditorNode): EditorNode {
    node.(id := NewName(names, node.id), x := node.x + OFFSET, y := node.y + OFFSET, selected := true)
  }

  function EdgeId(source: NodeId, sourceHandle: string, target: NodeId, targetHandle: string): string {
    source + "." + sourceHandle + "->" + target + "." + targetHandle
  }

  function PastedEdge(names: map<NodeId, NodeId>, edge: Edge): Edge {
    var source, target := NewName(names, edge.source), NewName(names, edge.target);
    Edge(EdgeId(source, edge.sourceHandle, target, edge.targetHandle), source, edge.sourceHandle,
         target, edge.targetHandle, false)
  }

  function PastedNodes(names: map<NodeId, NodeId>, nodes: seq<EditorNode>): (r: seq<EditorNode>)
    ensures |r| == |nodes| && forall i :: 0 <= i < |nodes| ==> r[i] == PastedNode(names, nodes[i])
  {
    seq(|nodes|, i requires 0 <= i < |nodes| => PastedNode(names, nodes[i]))
  }

  function PastedEdges(names: map<NodeId, NodeId>, edges: seq<Edge>): (r: seq<Edge>)
    ensures |r| == |edges| && forall i :: 0 <= i < |edges| ==> r[i] == PastedEdge(names, edges[i])
  {
    seq(|edges|, i requires 0 <= i < |edges| => PastedEdge(names, edges[i]))
  }

  function Paste(clipboard: Snapshot, existing: set<NodeId>): Snapshot {
    var names := RenameAll(Ids(clipboard.nodes), existing).names;
    Snapshot(PastedNodes(names, clipboard.nodes), PastedEdges(names, clipboard.edges))
  }

  // -- the loops -----------------------------------------------------------------------------------

  /** Terminates for every finite set of taken names. */
  method FindFree(id: NodeId, taken: set<NodeId>) returns (candidate: NodeId)
    ensures candidate == FirstFree(id, taken, 1)
  {
    candidate := Candidate(id, 1);
    var n := 2;
    while candidate in taken
      invariant n >= 2 && candidate == Candidate(id, n - 1)
      invariant FirstFree(id, taken, n - 1) == FirstFree(id, taken, 1)
      decreases |taken - Tried(id, n - 1)|
    {
      OneMoreTried(id, taken, n - 1);
      candidate := Candidate(id, n);
      n := n + 1;
    }
  }

  lemma OneMoreRenamed(all: seq<NodeId>, i: nat, existing: set<NodeId>)
    requires i < |all|
    ensures all[..i + 1] == all[..i] + [all[i]]
    ensures var before := RenameAll(all[..i], existing);
            var given := FirstFree(all[i], before.taken + before.names.Keys, 1);
            RenameAll(all[..i + 1], existing) == Renamed(before.names[all[i] := given], before.taken + {given})
  {
    assert Front(all[..i + 1]) == all[..i] && Last(all[..i + 1]) == all[i];
  }

  /** The loop over the nodes: a free name for each, and the old names in the order they were first met. */
  method RenameNodes(nodes: seq<EditorNode>, existing: set<NodeId>)
    returns (names: map<NodeId, NodeId>, met: seq<NodeId>)
    ensures names == RenameAll(Ids(nodes), existing).names
    ensures forall id :: id in met ==> id in names
    ensures if nodes == [] then met == [] else met != [] && met[0] == nodes[0].id
    ensures Distinct(Ids(nodes)) ==> met == Ids(nodes)
  {
    names, met := map[], [];
    var taken := existing;
    var i := 0;
    ghost var all := Ids(nodes);
    while i < |nodes|
      invariant 0 <= i <= |nodes|
      invariant Renamed(names, taken) == RenameAll(all[..i], existing)
      invariant forall id :: id in names <==> id in all[..i]
      invariant forall id :: id in met <==> id in names
      invariant if i == 0 then met == [] else met != [] && met[0] == all[0]
      invariant Distinct(all) ==> met == all[..i]
    {
      OneMoreRenamed(all, i, existing);
      var candidate := FindFree(nodes[i].id, taken + names.Keys);
      if nodes[i].id !in names {
        met := met + [nodes[i].id];
      }
      names := names[nodes[i].id := candidate];
      taken := taken + {candidate};
      i := i + 1;
    }
    assert all[..i] == all;
  }

  /** The new names come in the order their old ones were first met. */
  method PasteInto(clipboard: Snapshot, existing: set<NodeId>) returns (pasted: Snapshot, ids: seq<NodeId>)
    ensures pasted == Paste(clipboard, existing)
    ensures Distinct(Ids(clipboard.nodes)) ==> ids == Ids(pasted.nodes)
    ensures pasted.nodes != [] ==> ids != [] && ids[0] == pasted.nodes[0].id
  {
    var names, met := RenameNodes(clipboard.nodes, existing);
    pasted := Snapshot(PastedNodes(names, clipboard.nodes), PastedEdges(names, clipboard.edges));
    ids := seq(|met|, k requires 0 <= k < |met| => NewName(names, met[k]));
    assert Distinct(Ids(clipboard.nodes)) ==> ids == Ids(pasted.nodes);
  }

  // -- what a paste is -------------------------------------------------------------------------------

  lemma ValuesGrow(names: map<NodeId, NodeId>, id: NodeId, given: NodeId)
    requires id !in names
    ensures names[id := given].Values == names.Values + {given}
  {
    var r := names[id := given];
    forall v | v in names.Values ensures v in r.Values {
      var k :| k in names && names[k] == v;
      assert r[k] == v;
    }
    assert r[id] == given;
  }

  ghost predicate FreshNames(names: map<NodeId, NodeId>, existing: set<NodeId>) {
    && (forall id :: id in names ==> names[id] !in existing)
    && (forall a, b :: a in names && b in names && a != b ==> names[a] != names[b])
  }

  lemma OneMoreName(names: map<NodeId, NodeId>, existing: set<NodeId>, id: NodeId, given: NodeId)
    requires FreshNames(names, existing) && id !in names && given !in existing + names.Values
    ensures FreshNames(names[id := given], existing)
  {
    forall a | a in names ensures names[a] != given {
      assert names[a] in names.Values;
    }
  }

  /** New names are new and never given twice. */
  lemma {:induction false} RenamingIsFresh(ids: seq<NodeId>, existing: set<NodeId>)
    requires Distinct(ids)
    ensures var r := RenameAll(ids, existing);
            && r.names.Keys == (set id | id in ids) && r.taken == existing + r.names.Values
            && FreshNames(r.names, existing)
  {
    if ids != [] {
      var front, last := Front(ids), Last(ids);
      RenamingIsFresh(front, existing);
      var before := RenameAll(front, existing);
      assert last !in front && ids == front + [last];
      var given := FirstFree(last, before.taken + before.names.Keys, 1);
      OneMoreName(before.names, existing, last, given);
      ValuesGrow(before.names, last, given);
    }
  }

  ghost predicate EndsPresent(s: Snapshot) {
    forall e :: e in s.edges ==> e.source in IdSet(s.nodes) && e.target in IdSet(s.nodes)
  }

  lemma IdsAreIdSet(nodes: seq<EditorNode>)
    ensures (set id | id in Ids(nodes)) == IdSet(nodes)
  {
    forall n | n in nodes ensures n.id in Ids(nodes) {
      var i :| 0 <= i < |nodes| && nodes[i] == n;
      assert Ids(nodes)[i] == n.id;
    }
  }

  /** Which new name stands for which old one. */
  function Renaming(clipboard: Snapshot, existing: set<NodeId>): map<NodeId, NodeId> {
    RenameAll(Ids(clipboard.nodes), existing).names
  }

  /** The renaming is injective, covers the clipboard and leads to names nothing on the canvas has. */
  lemma RenamingIsInjective(clipboard: Snapshot, existing: set<NodeId>)
    requires Distinct(Ids(clipboard.nodes))
    ensures var names := Renaming(clipboard, existing);
            && names.Keys == IdSet(clipboard.nodes)
            && (forall a, b :: a in names && b in names && a != b ==> names[a] != names[b])
            && (forall id :: id in names ==> names[id] !in existing)
  {
    RenamingIsFresh(Ids(clipboard.nodes), existing);
    IdsAreIdSet(clipboard.nodes);
  }

  /** Pasted nodes are the clipboard's, one for one, under their new names: distinct among themselves
      and from everything on the canvas, with the same data, set off by the same step. */
  lemma PastedNodesAreCopies(clipboard: Snapshot, existing: set<NodeId>)
    requires Distinct(Ids(clipboard.nodes))
    ensures var p, names := Paste(clipboard, existing), Renaming(clipboard, existing);
            && Distinct(Ids(p.nodes)) && IdSet(p.nodes) !! existing
            && |p.nodes| == |clipboard.nodes|
            && (forall i :: 0 <= i < |p.nodes| ==>
                  && clipboard.nodes[i].id in names && p.nodes[i].id == names[clipboard.nodes[i].id]
                  && p.nodes[i].data == clipboard.nodes[i].data && p.nodes[i].selected
                  && p.nodes[i].x - clipboard.nodes[i].x == 32.0 && p.nodes[i].y - clipboard.nodes[i].y == 32.0)
  {
    var ids, p, names := Ids(clipboard.nodes), Paste(clipboard, existing), Renaming(clipboard, existing);
    RenamingIsInjective(clipboard, existing);
    forall i | 0 <= i < |p.nodes|
      ensures clipboard.nodes[i].id in names && p.nodes[i].id == names[clipboard.nodes[i].id]
    {
      assert clipboard.nodes[i] in clipboard.nodes;
    }
    forall i, j | 0 <= i < j < |p.nodes| ensures Ids(p.nodes)[i] != Ids(p.nodes)[j] {
      assert ids[i] != ids[j];
    }
  }

  /** Pasted edges are the clipboard's between the corresponding nodes and the same ports; none of them
      touches a node that was there before. */
  lemma PastedEdgesAreCopies(clipboard: Snapshot, existing: set<NodeId>)
    requires Distinct(Ids(clipboard.nodes)) && EndsPresent(clipboard)
    ensures var p, names := Paste(clipboard, existing), Renaming(clipboard, existing);
            && EndsPresent(p) && |p.edges| == |clipboard.edges|
            && (forall i :: 0 <= i < |p.edges| ==> EdgeCopied(names, clipboard.edges[i], p.edges[i]))
            && (forall e :: e in p.edges ==> e.source !in existing && e.target !in existing)
  {
    var p, names := Paste(clipboard, existing), Renaming(clipboard, existing);
    RenamingIsInjective(clipboard, existing);
    PastedNodesAreCopies(clipboard, existing);
    forall i | 0 <= i < |p.edges|
      ensures EdgeCopied(names, clipboard.edges[i], p.edges[i])
      ensures p.edges[i].source in IdSet(p.nodes) && p.edges[i].target in IdSet(p.nodes)
    {
      assert clipboard.edges[i] in clipboard.edges;
      NameOfPasted(clipboard, p, names, clipboard.edges[i].source);
      NameOfPasted(clipboard, p, names, clipboard.edges[i].target);
    }
  }

  predicate EdgeCopied(names: map<NodeId, NodeId>, old': Edge, new': Edge) {
    && old'.source in names && old'.target in names
    && new'.source == names[old'.source] && new'.target == names[old'.target]
    && new'.sourceHandle == old'.sourceHandle && new'.targetHandle == old'.targetHandle && !new'.selected
    && new'.id == new'.source + "." + old'.sourceHandle + "->" + new'.target + "." + old'.targetHandle
  }

  lemma NameOfPasted(clipboard: Snapshot, p: Snapshot, names: map<NodeId, NodeId>, id: NodeId)
    requires |p.nodes| == |clipboard.nodes| && names.Keys == IdSet(clipboard.nodes) && id in names
    requires forall i :: 0 <= i < |p.nodes| ==> p.nodes[i].id == names[clipboard.nodes[i].id]
    ensures names[id] in IdSet(p.nodes)
  {
    var n :| n in clipboard.nodes && n.id == id;
    var i :| 0 <= i < |clipboard.nodes| && clipboard.nodes[i] == n;
    assert p.nodes[i] in p.nodes;
  }

  // -- which name each copy gets ---------------------------------------------------------------------

  /** `id-copy`, or `id-copy` and a number from two on, such that every earlier spelling is taken. */
  ghost predicate FirstCopyName(id: NodeId, taken: set<NodeId>, name: NodeId) {
    && name !in taken
    && (|| name == id + "-copy"
        || (id + "-copy" in taken
            && exists n: nat :: n >= 2 && name == id + "-copy" + Decimal.Show(n)
                                && forall k: nat :: 2 <= k < n ==> id + "-copy" + Decimal.Show(k) in taken))
  }

  lemma {:induction false} FirstFreeFrom(id: NodeId, taken: set<NodeId>, n: nat) returns (m: nat)
    requires n >= 1
    ensures m >= n && FirstFree(id, taken, n) == Candidate(id, m)
    ensures forall k: nat :: n <= k < m ==> Candidate(id, k) in taken
    decreases |taken - Tried(id, n)|
  {
    m := n;
    if Candidate(id, n) in taken {
      OneMoreTried(id, taken, n);
      m := FirstFreeFrom(id, taken, n + 1);
    }
  }

  lemma CandidateSpelled(id: NodeId, n: nat)
    requires n >= 1
    ensures Candidate(id, n) == if n == 1 then id + "-copy" else id + "-copy" + Decimal.Show(n)
  {
    assert id + "-copy" + "" == id + "-copy";
  }

  lemma FirstFreeIsFirst(id: NodeId, taken: set<NodeId>)
    ensures FirstCopyName(id, taken, FirstFree(id, taken, 1))
  {
    var m := FirstFreeFrom(id, taken, 1);
    forall k: nat | k >= 1
      ensures Candidate(id, k) == if k == 1 then id + "-copy" else id + "-copy" + Decimal.Show(k)
    {
      CandidateSpelled(id, k);
    }
    if m > 1 {
      assert Candidate(id, 1) in taken;
      forall k: nat | 2 <= k < m ensures id + "-copy" + Decimal.Show(k) in taken {
        assert Candidate(id, k) in taken;
      }
    }
  }

  /** What counts as taken after some nodes have been named: the names on the canvas, and of those nodes both the
      old names and the new. */
  ghost function TakenAfter(ids: seq<NodeId>, existing: set<NodeId>, names: map<NodeId, NodeId>): set<NodeId>
    requires forall id :: id in ids ==> id in names
  {
    existing + (set id | id in ids) + (set id | id in ids :: names[id])
  }

  ghost predicate NamedWell(ids: seq<NodeId>, existing: set<NodeId>, names: map<NodeId, NodeId>, j: nat)
    requires j < |ids| && forall id :: id in ids ==> id in names
  {
    FirstCopyName(ids[j], TakenAfter(ids[..j], existing, names), names[ids[j]])
  }

  lemma TakenIsAll(ids: seq<NodeId>, existing: set<NodeId>, r: Renamed)
    requires r.names.Keys == (set id | id in ids) && r.taken == existing + r.names.Values
    ensures TakenAfter(ids, existing, r.names) == r.taken + r.names.Keys
  {
    forall v | v in r.names.Values ensures v in (set id | id in ids :: r.names[id]) {
      var id :| id in r.names && r.names[id] == v;
      assert id in ids;
    }
  }

  lemma GivenIsNamedWell(front: seq<NodeId>, last: NodeId, existing: set<NodeId>, names: map<NodeId, NodeId>,
                         taken: set<NodeId>, given: NodeId)
    requires (forall id :: id in front ==> id in names) && last !in front
    requires TakenAfter(front, existing, names) == taken && FirstCopyName(last, taken, given)
    ensures NamedWell(front + [last], existing, names[last := given], |front|)
  {
    assert (front + [last])[..|front|] == front;
    TakenStays(front, existing, names, names[last := given]);
  }

  lemma OneMoreGiven(front: seq<NodeId>, last: NodeId, existing: set<NodeId>) returns (given: NodeId)
    requires Distinct(front)
    ensures var names := RenameAll(front, existing).names;
            && names.Keys == (set id | id in front)
            && RenameAll(front + [last], existing).names == names[last := given]
            && FirstCopyName(last, TakenAfter(front, existing, names), given)
  {
    var before := RenameAll(front, existing);
    RenamingIsFresh(front, existing);
    TakenIsAll(front, existing, before);
    given := FirstFree(last, before.taken + before.names.Keys, 1);
    FirstFreeIsFirst(last, before.taken + before.names.Keys);
    assert Front(front + [last]) == front && Last(front + [last]) == last;
  }

  lemma LastIsNamedWell(front: seq<NodeId>, last: NodeId, existing: set<NodeId>)
    requires Distinct(front) && last !in front
    ensures var names := RenameAll(front + [last], existing).names;
            (forall id :: id in front + [last] ==> id in names) && NamedWell(front + [last], existing, names, |front|)
  {
    var given := OneMoreGiven(front, last, existing);
    var names := RenameAll(front, existing).names;
    GivenIsNamedWell(front, last, existing, names, TakenAfter(front, existing, names), given);
  }

  lemma TakenStays(ids: seq<NodeId>, existing: set<NodeId>, names: map<NodeId, NodeId>, more: map<NodeId, NodeId>)
    requires forall id :: id in ids ==> id in names && id in more && more[id] == names[id]
    ensures TakenAfter(ids, existing, more) == TakenAfter(ids, existing, names)
  {
    assert (set id | id in ids :: more[id]) == (set id | id in ids :: names[id]);
  }

  lemma NamedWellStays(ids: seq<NodeId>, last: NodeId, existing: set<NodeId>, names: map<NodeId, NodeId>,
                       given: NodeId, j: nat)
    requires j < |ids| && last !in ids && (forall id :: id in ids ==> id in names) && NamedWell(ids, existing, names, j)
    ensures NamedWell(ids + [last], existing, names[last := given], j)
  {
    assert (ids + [last])[..j] == ids[..j];
    assert forall id :: id in ids[..j] ==> id in ids;
    TakenStays(ids[..j], existing, names, names[last := given]);
  }

  /** Each copy is named after its original, by the first spelling that is not taken when its turn comes. */
  lemma {:induction false} NamedInTurn(ids: seq<NodeId>, existing: set<NodeId>, j: nat)
    requires Distinct(ids) && j < |ids|
    ensures var names := RenameAll(ids, existing).names;
            (forall id :: id in ids ==> id in names) && NamedWell(ids, existing, names, j)
  {
    var front, last := Front(ids), Last(ids);
    assert ids == front + [last] && last !in front;
    if j == |front| {
      LastIsNamedWell(front, last, existing);
    } else {
      var given := OneMoreGiven(front, last, existing);
      NamedInTurn(front, existing, j);
      NamedWellStays(front, last, existing, RenameAll(front, existing).names, given, j);
    }
  }
}
