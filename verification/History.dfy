/** Undo and redo as snapshots. */
module History {
  import opened Common

  const LIMIT: nat := 100

  /** `past` is oldest first; `future` is nearest first. */
  datatype History<S> = History(past: seq<S>, future: seq<S>)

  function Empty<S>(): History<S> {
    History([], [])
  }

  function LastOf<S>(s: seq<S>, n: nat): seq<S> {
    if |s| <= n then s else s[|s| - n..]
  }

  function FirstOf<S>(s: seq<S>, n: nat): seq<S> {
    if |s| <= n then s else s[..n]
  }

  /** The state before an edit. Whatever could have been redone is given up. */
  function Record<S>(h: History<S>, snapshot: S): History<S> {
    History(LastOf(h.past + [snapshot], LIMIT), [])
  }

  datatype Step<S> = Step(history: History<S>, snapshot: S)

  function Undo<S>(h: History<S>, current: S): Option<Step<S>> {
    if h.past == [] then None
    else Some(Step(History(Front(h.past), FirstOf([current] + h.future, LIMIT)), Last(h.past)))
  }

  function Redo<S>(h: History<S>, current: S): Option<Step<S>> {
    if h.future == [] then None
    else Some(Step(History(LastOf(h.past + [current], LIMIT), h.future[1..]), h.future[0]))
  }

  // -- sessions --------------------------------------------------------------------------------

  /** A canvas together with its history. */
  datatype Session<S> = Session(history: History<S>, canvas: S)

  /** What moves a session: a recorded edit, a change that is not recorded, undo, redo. */
  datatype Move<S> = Edit(to: S) | Slide(to: S) | Undoing | Redoing

  function Land<S>(x: Session<S>, step: Option<Step<S>>): Session<S> {
    if step.None? then x else Session(step.value.history, step.value.snapshot)
  }

  function Apply<S>(x: Session<S>, move: Move<S>): Session<S> {
    match move
    case Edit(to) => Session(Record(x.history, x.canvas), to)
    case Slide(to) => x.(canvas := to)
    case Undoing => Land(x, Undo(x.history, x.canvas))
    case Redoing => Land(x, Redo(x.history, x.canvas))
  }

  function Run<S>(x: Session<S>, moves: seq<Move<S>>): Session<S> {
    if moves == [] then x else Apply(Run(x, Front(moves)), Last(moves))
  }

  /** Undo and redo share one allowance. */
  predicate WithinLimit<S>(h: History<S>) {
    |h.past| + |h.future| <= LIMIT
  }

  lemma {:induction false} EverythingReachableIsWithinLimit<S>(canvas: S, moves: seq<Move<S>>)
    ensures WithinLimit(Run(Session(Empty(), canvas), moves).history)
  {
    if moves != [] {
      EverythingReachableIsWithinLimit(canvas, Front(moves));
    }
  }

  /** So the cuts in undo and redo never drop anything, and each takes back exactly what the other did:
      the canvas, and the whole history. */
  lemma UndoThenRedo<S>(x: Session<S>)
    requires WithinLimit(x.history) && x.history.past != []
    ensures Apply(Apply(x, Undoing), Redoing) == x
  {
    assert Front(x.history.past) + [Last(x.history.past)] == x.history.past;
    assert ([x.canvas] + x.history.future)[1..] == x.history.future;
  }

  lemma RedoThenUndo<S>(x: Session<S>)
    requires WithinLimit(x.history) && x.history.future != []
    ensures Apply(Apply(x, Redoing), Undoing) == x
  {
    assert Front(x.history.past + [x.canvas]) == x.history.past;
    assert [x.history.future[0]] + x.history.future[1..] == x.history.future;
  }

  function Repeat<S>(x: Session<S>, move: Move<S>, k: nat): Session<S> {
    if k == 0 then x else Apply(Repeat(x, move, k - 1), move)
  }

  /** `k` undos: the canvas is the `k`-th latest snapshot, and what was passed on the way waits to be
      redone. */
  lemma {:induction false} UndoneBy<S>(x: Session<S>, k: nat)
    requires WithinLimit(x.history) && 1 <= k <= |x.history.past|
    ensures var y, n := Repeat(x, Undoing, k), |x.history.past|;
            && y.canvas == x.history.past[n - k] && y.history.past == x.history.past[..n - k]
            && y.history.future == x.history.past[n - k + 1..] + [x.canvas] + x.history.future
            && WithinLimit(y.history)
  {
    var n := |x.history.past|;
    if k == 1 {
      assert Repeat(x, Undoing, 0) == x;
      assert x.history.past[n..] == [];
    } else {
      UndoneBy(x, k - 1);
      var z := Repeat(x, Undoing, k - 1);
      assert [x.history.past[n - k + 1]] + x.history.past[n - k + 2..] == x.history.past[n - k + 1..];
      assert [z.canvas] + z.history.future
          == [x.history.past[n - k + 1]] + (x.history.past[n - k + 2..] + [x.canvas] + x.history.future);
    }
  }

  /** As many redos as undos bring back history and canvas, however many that is. */
  lemma {:induction false} UndosThenRedos<S>(x: Session<S>, k: nat)
    requires WithinLimit(x.history) && k <= |x.history.past|
    ensures Repeat(Repeat(x, Undoing, k), Redoing, k) == x
  {
    if k > 0 {
      var y := Repeat(x, Undoing, k - 1);
      if k > 1 {
        UndoneBy(x, k - 1);
      }
      UndoThenRedo(y);
      RepeatFirst(Repeat(x, Undoing, k), Redoing, k);
      UndosThenRedos(x, k - 1);
    }
  }

  lemma {:induction false} RepeatFirst<S>(x: Session<S>, move: Move<S>, k: nat)
    requires k > 0
    ensures Repeat(x, move, k) == Repeat(Apply(x, move), move, k - 1)
  {
    if k > 1 {
      RepeatFirst(x, move, k - 1);
    }
  }

  function EditsTo<S>(canvases: seq<S>): seq<Move<S>> {
    if canvases == [] then [] else EditsTo(Front(canvases)) + [Edit(Last(canvases))]
  }

  lemma {:induction false} PastOfEdits<S>(x: Session<S>, canvases: seq<S>)
    requires WithinLimit(x.history)
    ensures var y := Run(x, EditsTo(canvases));
            && y.canvas == ([x.canvas] + canvases)[|canvases|]
            && (canvases != [] ==>
                  && y.history.future == []
                  && y.history.past == LastOf(x.history.past + ([x.canvas] + canvases)[..|canvases|], LIMIT))
            && WithinLimit(y.history)
  {
    if canvases != [] {
      var front, n := Front(canvases), |canvases| - 1;
      PastOfEdits(x, front);
      assert Front(EditsTo(canvases)) == EditsTo(front) && Last(EditsTo(canvases)) == Edit(Last(canvases));
      var before, line := Run(x, EditsTo(front)), [x.canvas] + canvases;
      assert [x.canvas] + front == line[..n + 1];
      assert before.canvas == line[n];
      assert line[..n + 1] == line[..n] + [line[n]];
      var earlier := x.history.past + line[..n];
      assert x.history.past + line[..n + 1] == earlier + [line[n]];
      assert line[..n + 1][..n] == line[..n];
      if front == [] {
        assert earlier == x.history.past;
      }
      LastOfSnoc(earlier, line[n]);
    }
  }

  lemma LastOfSnoc<S>(s: seq<S>, e: S)
    ensures LastOf(LastOf(s, LIMIT) + [e], LIMIT) == LastOf(s + [e], LIMIT)
  {
  }

  /** After any number of edits, the `k`-th undo shows the canvas as it was before the `k`-th latest of
      them, as far back as a hundred. */
  lemma UndoReachesBack<S>(x: Session<S>, canvases: seq<S>, k: nat)
    requires WithinLimit(x.history) && 1 <= k <= |canvases| && k <= 100
    ensures Repeat(Run(x, EditsTo(canvases)), Undoing, k).canvas == ([x.canvas] + canvases)[|canvases| - k]
  {
    PastOfEdits(x, canvases);
    var y := Run(x, EditsTo(canvases));
    var line := ([x.canvas] + canvases)[..|canvases|];
    assert |y.history.past| >= k;
    UndoneBy(y, k);
  }

  /** And no further: with a fresh history, undo gives out after the hundredth. */
  lemma UndoGivesOut<S>(canvas: S, canvases: seq<S>)
    ensures |Run(Session(Empty(), canvas), EditsTo(canvases)).history.past|
            == if |canvases| <= 100 then |canvases| else 100
  {
    PastOfEdits(Session(Empty(), canvas), canvases);
  }
}
