/** What the folder watcher promises over whole sequences of polls. */
module WatcherRuns {
  import opened Common
  import opened FileSystem
  import opened BrokerState
  import opened Watcher

  /** A watcher after some polls, starting from nothing. */
  function After(c: Config, inputs: seq<Input>): Memory {
    if inputs == [] then Memory(map[], map[], false)
    else PollOnce(c, After(c, Front(inputs)), Last(inputs)).memory
  }

  /** The `i`-th poll of a run, with everything it collected. */
  function PollAt(c: Config, inputs: seq<Input>, i: nat): Swept
    requires i < |inputs|
  {
    PollOnce(c, After(c, inputs[..i]), inputs[i])
  }

  /** Listings of one folder show each path once. */
  ghost predicate Plausible(inputs: seq<Input>) {
    forall i :: 0 <= i < |inputs| ==> inputs[i].listing.Some? ==> OncePerPath(inputs[i].listing.value)
  }

  ghost predicate OncePerPath(entries: seq<DirEntry>) {
    forall i, j :: 0 <= i < j < |entries| ==> entries[i].path != entries[j].path
  }

  /** The poll handed this content of this path to the workflow (or had it collected when an import
      failed after it). */
  ghost predicate Emits(s: Swept, p: RawPath, m: nat) {
    exists event :: event in s.events && event.entry.path == p && event.entry.modified == m
  }

  ghost predicate Shows(entries: seq<DirEntry>, p: RawPath, m: nat) {
    exists e :: e in entries && e.path == p && e.modified == m
  }

  /** A listing was obtained and, filtered, it does not show the path with that time. */
  ghost predicate Separates(c: Config, input: Input, p: RawPath, m: nat) {
    input.listing.Some? && !Shows(Present(c, input.listing.value), p, m)
  }

  lemma AfterOneMore(c: Config, inputs: seq<Input>, i: nat)
    requires i < |inputs|
    ensures After(c, inputs[..i + 1]) == PollAt(c, inputs, i).memory
  {
    assert Front(inputs[..i + 1]) == inputs[..i];
  }

  lemma FilteredOncePerPath(c: Config, entries: seq<DirEntry>)
    requires OncePerPath(entries)
    ensures OncePerPath(Present(c, entries))
  {
    FilteredStaysOnce((e: DirEntry) => Wanted(c, e), entries);
  }

  // -- a watcher sees each path on its own ---------------------------------------------------------

  /** What a watcher remembers about one path. */
  datatype View = View(observed: Option<Seen>, emitted: Option<nat>)

  function ViewOf(w: Memory, p: RawPath): View {
    View(if p in w.observed then Some(w.observed[p]) else None,
         if p in w.emitted then Some(w.emitted[p]) else None)
  }

  datatype Answer = Quiet | Emitting | Failing

  function LookAgain(v: View, e: DirEntry): Seen {
    var seen := if v.observed.Some? then v.observed.value else Seen(e.size, e.modified, 0);
    if seen.size == e.size && seen.modified == e.modified
    then seen.(stableFor := seen.stableFor + 1)
    else Seen(e.size, e.modified, 0)
  }

  /** One visit, in terms of what is remembered about that path alone. */
  function VisitView(v: View, e: DirEntry, importable: bool): (View, Answer) {
    if v.emitted == Some(e.modified) then (v, Quiet)
    else
      var seen := LookAgain(v, e);
      if seen.stableFor < STABLE_POLLS then (View(Some(seen), None), Quiet)
      else if !importable then (View(Some(seen), None), Failing)
      else (View(None, Some(e.modified)), Emitting)
  }

  lemma VisitIsLocal(w: Memory, e: DirEntry, imports: map<RawPath, Handle>, p: RawPath)
    ensures var (w', visited) := Visit(w, e, imports);
            var (v, answer) := VisitView(ViewOf(w, e.path), e, e.path in imports);
            && ViewOf(w', p) == (if p == e.path then v else ViewOf(w, p))
            && (answer.Quiet? <==> visited.Passed?) && (answer.Emitting? <==> visited.Emitted?)
            && (visited.Emitted? ==> e.path in imports && visited.event == Fired(e, imports[e.path]))
  {
  }

  lemma EmitsOneMore(w: Memory, present: seq<DirEntry>, imports: map<RawPath, Handle>, p: RawPath, m: nat)
    requires present != []
    ensures var before := Sweep(w, Front(present), imports);
            Emits(Sweep(w, present, imports), p, m) <==>
              Emits(before, p, m)
              || (!before.failed && Visit(before.memory, Last(present), imports).1.Emitted?
                  && Last(present).path == p && Last(present).modified == m)
  {
    var before := Sweep(w, Front(present), imports);
    var s := Sweep(w, present, imports);
    if !before.failed && Visit(before.memory, Last(present), imports).1.Emitted? {
      VisitIsLocal(before.memory, Last(present), imports, p);
      var event := Visit(before.memory, Last(present), imports).1.event;
      assert s.events == before.events + [event];
      assert event in s.events;
    }
  }

  /** A sweep that does not meet a path leaves what is known about it alone. */
  lemma {:induction false} SweepWithout(w: Memory, present: seq<DirEntry>, imports: map<RawPath, Handle>, p: RawPath,
                                        m: nat)
    requires forall e :: e in present ==> e.path != p
    ensures ViewOf(Sweep(w, present, imports).memory, p) == ViewOf(w, p)
    ensures !Emits(Sweep(w, present, imports), p, m)
  {
    if present != [] {
      SweepWithout(w, Front(present), imports, p, m);
      VisitIsLocal(Sweep(w, Front(present), imports).memory, Last(present), imports, p);
      EmitsOneMore(w, present, imports, p, m);
    }
  }

  /** What a sweep did to a path whose entry it may have come to. */
  ghost predicate VisitedOnce(before: View, s: Swept, e: DirEntry, importable: bool, m: nat) {
    var (v, answer) := VisitView(before, e, importable);
    && ViewOf(s.memory, e.path) == v
    && (Emits(s, e.path, m) <==> answer.Emitting? && m == e.modified)
    && (answer.Failing? ==> s.failed)
  }

  ghost predicate NeverReached(before: View, s: Swept, p: RawPath, m: nat) {
    s.failed && ViewOf(s.memory, p) == before && !Emits(s, p, m)
  }

  lemma {:induction false} SweepMeetsOnce(w: Memory, present: seq<DirEntry>, imports: map<RawPath, Handle>,
                                          e: DirEntry, m: nat)
    requires OncePerPath(present) && e in present
    ensures var s := Sweep(w, present, imports);
            || VisitedOnce(ViewOf(w, e.path), s, e, e.path in imports, m)
            || NeverReached(ViewOf(w, e.path), s, e.path, m)
  {
    var front := Front(present);
    EmitsOneMore(w, present, imports, e.path, m);
    VisitIsLocal(Sweep(w, front, imports).memory, Last(present), imports, e.path);
    if Last(present) == e {
      assert forall f :: f in front ==> f.path != e.path;
      SweepWithout(w, front, imports, e.path, m);
    } else {
      assert e in front && OncePerPath(front);
      assert Last(present).path != e.path;
      SweepMeetsOnce(w, front, imports, e, m);
    }
  }

  // -- one poll, one path ---------------------------------------------------------------------------

  lemma {:induction false} MarkAllMarks(emitted: map<RawPath, nat>, entries: seq<DirEntry>, p: RawPath)
    requires OncePerPath(entries)
    ensures var marked := MarkAll(emitted, entries);
            && (forall e :: e in entries && e.path == p ==> p in marked && marked[p] == e.modified)
            && ((forall e :: e in entries ==> e.path != p) ==>
                  (p in marked <==> p in emitted) && (p in emitted ==> marked[p] == emitted[p]))
  {
    if entries != [] {
      MarkAllMarks(emitted, Front(entries), p);
      forall e | e in entries && e.path == p && e != Last(entries)
        ensures Last(entries).path != p && e in Front(entries)
      {
      }
    }
  }

  /** What is known about a path when the sweep starts: the first listing may have marked it, and a
      path that is not shown is forgotten. */
  function StartView(c: Config, w: Memory, entries: seq<DirEntry>, p: RawPath): View {
    ViewOf(Forget(Prime(c, w, entries), Present(c, entries)), p)
  }

  lemma StartOfShown(c: Config, w: Memory, entries: seq<DirEntry>, e: DirEntry)
    requires OncePerPath(entries) && e in Present(c, entries)
    ensures StartView(c, w, entries, e.path) ==
              if !w.primed && !c.existing then View(ViewOf(w, e.path).observed, Some(e.modified))
              else ViewOf(w, e.path)
  {
    MarkAllMarks(w.emitted, entries, e.path);
    assert e.path in Paths(Present(c, entries));
  }

  lemma StartOfHidden(c: Config, w: Memory, entries: seq<DirEntry>, p: RawPath)
    requires forall e :: e in Present(c, entries) ==> e.path != p
    ensures StartView(c, w, entries, p) == View(None, None)
  {
  }

  /** A poll, as one shown file sees it. */
  lemma PollOnShown(c: Config, w: Memory, input: Input, e: DirEntry, m: nat)
    requires input.listing.Some? && OncePerPath(input.listing.value) && e in Present(c, input.listing.value)
    ensures var s := PollOnce(c, w, input);
            var start := StartView(c, w, input.listing.value, e.path);
            || VisitedOnce(start, s, e, e.path in input.imports, m)
            || NeverReached(start, s, e.path, m)
  {
    FilteredOncePerPath(c, input.listing.value);
    SweepMeetsOnce(Forget(Prime(c, w, input.listing.value), Present(c, input.listing.value)),
                   Present(c, input.listing.value), input.imports, e, m);
  }

  lemma PollOnHidden(c: Config, w: Memory, input: Input, p: RawPath, m: nat)
    requires input.listing.Some? ==> forall e :: e in Present(c, input.listing.value) ==> e.path != p
    ensures var s := PollOnce(c, w, input);
            && ViewOf(s.memory, p) == (if input.listing.Some? then View(None, None) else ViewOf(w, p))
            && !Emits(s, p, m)
  {
    if input.listing.Some? {
      StartOfHidden(c, w, input.listing.value, p);
      SweepWithout(Forget(Prime(c, w, input.listing.value), Present(c, input.listing.value)),
                   Present(c, input.listing.value), input.imports, p, m);
    }
  }

  lemma PrimedAfterListing(c: Config, w: Memory, input: Input)
    ensures PollOnce(c, w, input).memory.primed == (w.primed || input.listing.Some?)
  {
    if input.listing.Some? {
      SweepKeepsPrimed(Forget(Prime(c, w, input.listing.value), Present(c, input.listing.value)),
                       Present(c, input.listing.value), input.imports);
    }
  }

  lemma {:induction false} SweepKeepsPrimed(w: Memory, present: seq<DirEntry>, imports: map<RawPath, Handle>)
    ensures Sweep(w, present, imports).memory.primed == w.primed
  {
    if present != [] {
      SweepKeepsPrimed(w, Front(present), imports);
    }
  }

  // -- at most once ---------------------------------------------------------------------------------

  /** The entry that shows a path, or none. */
  lemma ShownOrNot(c: Config, input: Input, p: RawPath) returns (e: Option<DirEntry>)
    requires input.listing.Some?
    ensures e.Some? ==> e.value in Present(c, input.listing.value) && e.value.path == p
    ensures e.None? ==> forall f :: f in Present(c, input.listing.value) ==> f.path != p
  {
    if f :| f in Present(c, input.listing.value) && f.path == p {
      e := Some(f);
    } else {
      e := None;
    }
  }

  lemma EmissionIsRemembered(c: Config, w: Memory, input: Input, p: RawPath, m: nat)
    requires input.listing.Some? ==> OncePerPath(input.listing.value)
    requires Emits(PollOnce(c, w, input), p, m)
    ensures input.listing.Some? && ViewOf(PollOnce(c, w, input).memory, p).emitted == Some(m)
    ensures ViewOf(w, p).emitted != Some(m)
  {
    if input.listing.Some? {
      var e := ShownOrNot(c, input, p);
      match e {
        case Some(entry) =>
          PollOnShown(c, w, input, entry, m);
          StartOfShown(c, w, input.listing.value, entry);
        case None => PollOnHidden(c, w, input, p, m);
      }
    }
  }

  lemma UnseparatedStays(c: Config, w: Memory, input: Input, p: RawPath, m: nat)
    requires input.listing.Some? ==> OncePerPath(input.listing.value)
    requires ViewOf(w, p).emitted == Some(m) && !Separates(c, input, p, m)
    ensures ViewOf(PollOnce(c, w, input).memory, p).emitted == Some(m)
  {
    if input.listing.Some? {
      var e :| e in Present(c, input.listing.value) && e.path == p && e.modified == m;
      PollOnShown(c, w, input, e, m);
      StartOfShown(c, w, input.listing.value, e);
    }
  }

  lemma {:induction false} RememberedUntilSeparated(c: Config, inputs: seq<Input>, i: nat, j: nat, p: RawPath, m: nat)
    requires Plausible(inputs) && i <= j <= |inputs|
    requires ViewOf(After(c, inputs[..i]), p).emitted == Some(m)
    requires forall k :: i <= k < j ==> !Separates(c, inputs[k], p, m)
    ensures ViewOf(After(c, inputs[..j]), p).emitted == Some(m)
    decreases j
  {
    if i < j {
      RememberedUntilSeparated(c, inputs, i, j - 1, p, m);
      UnseparatedStays(c, After(c, inputs[..j - 1]), inputs[j - 1], p, m);
      AfterOneMore(c, inputs, j - 1);
    }
  }

  /** The same content of the same path is handed over twice only if some poll in between obtained a
      listing that, filtered, lacked it or showed it changed: whatever else failed meanwhile. */
  lemma AtMostOnce(c: Config, inputs: seq<Input>, i: nat, j: nat, p: RawPath, m: nat)
    requires Plausible(inputs) && i < j < |inputs|
    requires Emits(PollAt(c, inputs, i), p, m) && Emits(PollAt(c, inputs, j), p, m)
    ensures exists k :: i < k < j && Separates(c, inputs[k], p, m)
  {
    EmissionIsRemembered(c, After(c, inputs[..i]), inputs[i], p, m);
    AfterOneMore(c, inputs, i);
    if forall k :: i < k < j ==> !Separates(c, inputs[k], p, m) {
      RememberedUntilSeparated(c, inputs, i + 1, j, p, m);
      EmissionIsRemembered(c, After(c, inputs[..j]), inputs[j], p, m);
    }
  }

  ghost predicate FirstListing(inputs: seq<Input>, i: nat) {
    i < |inputs| && inputs[i].listing.Some? && forall k :: 0 <= k < i ==> inputs[k].listing.None?
  }

  lemma {:induction false} NothingBeforeFirstListing(c: Config, inputs: seq<Input>, i: nat)
    requires i <= |inputs| && forall k :: 0 <= k < i ==> inputs[k].listing.None?
    ensures After(c, inputs[..i]) == Memory(map[], map[], false)
  {
    if i > 0 {
      NothingBeforeFirstListing(c, inputs, i - 1);
      AfterOneMore(c, inputs, i - 1);
    }
  }

  lemma ExistingIsMarked(c: Config, inputs: seq<Input>, i: nat, p: RawPath, m: nat)
    requires Plausible(inputs) && FirstListing(inputs, i) && !c.existing && !Separates(c, inputs[i], p, m)
    ensures ViewOf(After(c, inputs[..i + 1]), p).emitted == Some(m) && !Emits(PollAt(c, inputs, i), p, m)
  {
    var w := After(c, inputs[..i]);
    NothingBeforeFirstListing(c, inputs, i);
    var e :| e in Present(c, inputs[i].listing.value) && e.path == p && e.modified == m;
    PollOnShown(c, w, inputs[i], e, m);
    StartOfShown(c, w, inputs[i].listing.value, e);
    AfterOneMore(c, inputs, i);
  }

  /** With `existing` off, the files of the first listing count as handed over already: one of them
      comes out later only after a poll whose listing lacked it or showed it changed. */
  lemma ExistingFilesAreNotNews(c: Config, inputs: seq<Input>, i: nat, j: nat, p: RawPath, m: nat)
    requires Plausible(inputs) && FirstListing(inputs, i) && !c.existing
    requires Shows(inputs[i].listing.value, p, m) && j < |inputs| && Emits(PollAt(c, inputs, j), p, m)
    ensures exists k :: i <= k < j && Separates(c, inputs[k], p, m)
  {
    NothingBeforeFirstListing(c, inputs, i);
    assert inputs[j].listing.Some?;
    if !Separates(c, inputs[i], p, m) {
      ExistingIsMarked(c, inputs, i, p, m);
      if i < j && forall k :: i < k < j ==> !Separates(c, inputs[k], p, m) {
        RememberedUntilSeparated(c, inputs, i + 1, j, p, m);
        EmissionIsRemembered(c, After(c, inputs[..j]), inputs[j], p, m);
      }
    } else if i == j {
      EmittedIsShown(c, After(c, inputs[..j]), inputs[j], p, m);
    }
  }

  lemma EmittedIsShown(c: Config, w: Memory, input: Input, p: RawPath, m: nat)
    requires input.listing.Some? && OncePerPath(input.listing.value) && Emits(PollOnce(c, w, input), p, m)
    ensures Shows(Present(c, input.listing.value), p, m)
  {
    var e := ShownOrNot(c, input, p);
    match e {
      case Some(entry) => PollOnShown(c, w, input, entry, m);
      case None => PollOnHidden(c, w, input, p, m);
    }
  }

  /** What was collected in a poll that ended in a failed import is never delivered: its files are
      remembered as handed over, and come out only once a listing lacks them or shows them changed. */
  lemma DroppedUntilSeparated(c: Config, inputs: seq<Input>, i: nat, j: nat, p: RawPath, m: nat)
    requires Plausible(inputs) && i < j < |inputs|
    requires Emits(PollAt(c, inputs, i), p, m) && PollAt(c, inputs, i).failed
    requires forall k :: i < k < j ==> !Separates(c, inputs[k], p, m)
    ensures Delivered(PollAt(c, inputs, i)).None? && !Emits(PollAt(c, inputs, j), p, m)
  {
    if Emits(PollAt(c, inputs, j), p, m) {
      AtMostOnce(c, inputs, i, j, p, m);
    }
  }

  /** The file would be handed over at this look. */
  predicate Due(v: View, e: DirEntry) {
    VisitView(v, e, true).1.Emitting?
  }

  ghost predicate DueAndMissing(w: Memory, e: DirEntry, imports: map<RawPath, Handle>) {
    Due(ViewOf(w, e.path), e) && e.path !in imports
  }

  lemma {:induction false} SweepFailsExactly(w: Memory, present: seq<DirEntry>, imports: map<RawPath, Handle>)
    requires OncePerPath(present)
    ensures Sweep(w, present, imports).failed <==> exists e :: e in present && DueAndMissing(w, e, imports)
  {
    if present != [] {
      var front, last := Front(present), Last(present);
      assert forall f :: f in front ==> f.path != last.path;
      SweepFailsExactly(w, front, imports);
      var before := Sweep(w, front, imports);
      SweepWithout(w, front, imports, last.path, 0);
      VisitIsLocal(before.memory, last, imports, last.path);
      assert Sweep(w, present, imports).failed <==> before.failed || DueAndMissing(w, last, imports);
      assert forall e :: e in present <==> e in front || e == last;
    }
  }

  /** A poll delivers what it collected if and only if a listing was obtained and no shown file that is due
      cannot be imported: one such file anywhere in the listing is enough to lose all the others. */
  lemma DeliversExactly(c: Config, w: Memory, input: Input)
    requires input.listing.Some? ==> OncePerPath(input.listing.value)
    ensures Delivered(PollOnce(c, w, input)).Some? <==>
              && input.listing.Some?
              && forall e ::
                   e in Present(c, input.listing.value) && Due(StartView(c, w, input.listing.value, e.path), e)
                   ==> e.path in input.imports
  {
    if input.listing.Some? {
      var entries := input.listing.value;
      FilteredOncePerPath(c, entries);
      SweepFailsExactly(Forget(Prime(c, w, entries), Present(c, entries)), Present(c, entries), input.imports);
    }
  }

  // -- what one poll hands over ---------------------------------------------------------------------------

  /** Where a sweep stops: at the first file that is due and cannot be imported, or behind all. */
  ghost function StopsAt(w: Memory, present: seq<DirEntry>, imports: map<RawPath, Handle>): (n: nat)
    ensures n <= |present|
  {
    if present == [] then 0
    else
      var before := StopsAt(w, Front(present), imports);
      if before < |present| - 1 then before
      else if DueAndMissing(w, Last(present), imports) then |present| - 1
      else |present|
  }

  function DueTest(w: Memory): DirEntry -> bool {
    (e: DirEntry) => Due(ViewOf(w, e.path), e)
  }

  /** One event for each of these files, in their order, with the handle its import gave. */
  ghost predicate Announced(entries: seq<DirEntry>, imports: map<RawPath, Handle>, events: seq<Fired>) {
    && |events| == |entries|
    && forall i :: 0 <= i < |entries| ==>
         entries[i].path in imports && events[i] == Fired(entries[i], imports[entries[i].path])
  }

  lemma AnnouncedOneMore(entries: seq<DirEntry>, imports: map<RawPath, Handle>, events: seq<Fired>, e: DirEntry)
    requires Announced(entries, imports, events) && e.path in imports
    ensures Announced(entries + [e], imports, events + [Fired(e, imports[e.path])])
  {
  }

  lemma {:induction false} SweepAnnounces(w: Memory, present: seq<DirEntry>, imports: map<RawPath, Handle>)
    requires OncePerPath(present)
    ensures var s, n := Sweep(w, present, imports), StopsAt(w, present, imports);
            Announced(Filter(DueTest(w), present[..n]), imports, s.events) && (s.failed <==> n < |present|)
  {
    if present != [] {
      var front, last := Front(present), Last(present);
      SweepAnnounces(w, front, imports);
      var before, n := Sweep(w, front, imports), StopsAt(w, front, imports);
      assert forall f :: f in front ==> f.path != last.path;
      SweepWithout(w, front, imports, last.path, 0);
      VisitIsLocal(before.memory, last, imports, last.path);
      if before.failed {
        assert present[..n] == front[..n];
      } else {
        assert front[..n] == front && present[..|present|] == present && present[..|front|] == front;
        LastAnnounced(w, present, imports, before);
      }
    }
  }

  lemma LastAnnounced(w: Memory, present: seq<DirEntry>, imports: map<RawPath, Handle>, before: Swept)
    requires present != [] && before == Sweep(w, Front(present), imports) && !before.failed
    requires ViewOf(before.memory, Last(present).path) == ViewOf(w, Last(present).path)
    requires Announced(Filter(DueTest(w), Front(present)), imports, before.events)
    ensures var s := Sweep(w, present, imports);
            if DueAndMissing(w, Last(present), imports)
            then s.failed && Announced(Filter(DueTest(w), Front(present)), imports, s.events)
            else !s.failed && Announced(Filter(DueTest(w), present), imports, s.events)
  {
    var last := Last(present);
    VisitIsLocal(before.memory, last, imports, last.path);
    FilterLast(DueTest(w), present);
    if Due(ViewOf(w, last.path), last) && last.path in imports {
      AnnouncedOneMore(Filter(DueTest(w), Front(present)), imports, before.events, last);
    }
  }

  /** What a poll collects, exactly: of the files the filtered listing shows, in its order, those that are due, up
      to the first that cannot be imported; one event for each, with the handle its import gave. */
  lemma HandsOverExactly(c: Config, w: Memory, input: Input)
    requires input.listing.Some? && OncePerPath(input.listing.value)
    ensures var s, shown := PollOnce(c, w, input), Present(c, input.listing.value);
            var start := Forget(Prime(c, w, input.listing.value), shown);
            var n := StopsAt(start, shown, input.imports);
            Announced(Filter(DueTest(start), shown[..n]), input.imports, s.events) && (s.failed <==> n < |shown|)
  {
    FilteredOncePerPath(c, input.listing.value);
    SweepAnnounces(Forget(Prime(c, w, input.listing.value), Present(c, input.listing.value)),
                   Present(c, input.listing.value), input.imports);
  }

  lemma RestStaysOnce(entries: seq<DirEntry>)
    requires entries != [] && OncePerPath(entries)
    ensures OncePerPath(entries[1..]) && forall e :: e in entries[1..] ==> e.path != entries[0].path
  {
    var rest := entries[1..];
    forall i, j | 0 <= i < j < |rest| ensures rest[i].path != rest[j].path {
      assert entries[i + 1].path != entries[j + 1].path;
    }
  }

  lemma FirstStaysOnce(e: DirEntry, rest: seq<DirEntry>)
    requires OncePerPath(rest) && forall f :: f in rest ==> f.path != e.path
    ensures OncePerPath([e] + rest)
  {
    forall i, j | 0 <= i < j < |[e] + rest| ensures ([e] + rest)[i].path != ([e] + rest)[j].path {
      assert ([e] + rest)[j] == rest[j - 1] && rest[j - 1] in rest;
    }
  }

  lemma {:induction false} FilteredStaysOnce(keep: DirEntry -> bool, entries: seq<DirEntry>)
    requires OncePerPath(entries)
    ensures OncePerPath(Filter(keep, entries))
  {
    if entries != [] {
      RestStaysOnce(entries);
      FilteredStaysOnce(keep, entries[1..]);
      var kept := Filter(keep, entries[1..]);
      if keep(entries[0]) {
        FirstStaysOnce(entries[0], kept);
      } else {
        assert [] + kept == kept;
      }
    }
  }

  lemma PartStaysOnce(entries: seq<DirEntry>, n: nat)
    requires OncePerPath(entries) && n <= |entries|
    ensures OncePerPath(entries[..n]) && forall e :: e in entries[..n] ==> e in entries
  {
  }

  /** So no path comes twice in one poll, every event is of a file that was due and carries that file's own
      handle, and a poll in which no import failed has one for every file that was due. */
  lemma EachFileOnce(c: Config, w: Memory, input: Input)
    requires input.listing.Some? && OncePerPath(input.listing.value)
    ensures var s, shown := PollOnce(c, w, input), Present(c, input.listing.value);
            && (forall a, b :: 0 <= a < b < |s.events| ==> s.events[a].entry.path != s.events[b].entry.path)
            && (forall event :: event in s.events ==>
                  && event.entry in shown && Due(StartView(c, w, input.listing.value, event.entry.path), event.entry)
                  && event.entry.path in input.imports && event.handle == input.imports[event.entry.path])
            && (!s.failed ==> forall e :: e in shown && Due(StartView(c, w, input.listing.value, e.path), e) ==>
                  e.path in input.imports && Fired(e, input.imports[e.path]) in s.events)
  {
    var s, shown := PollOnce(c, w, input), Present(c, input.listing.value);
    var start := Forget(Prime(c, w, input.listing.value), shown);
    var n := StopsAt(start, shown, input.imports);
    HandsOverExactly(c, w, input);
    FilteredOncePerPath(c, input.listing.value);
    PartStaysOnce(shown, n);
    FilteredStaysOnce(DueTest(start), shown[..n]);
    AnnouncedOnce(Filter(DueTest(start), shown[..n]), input.imports, s.events);
    assert !s.failed ==> shown[..n] == shown;
  }

  lemma AnnouncedOnce(entries: seq<DirEntry>, imports: map<RawPath, Handle>, events: seq<Fired>)
    requires Announced(entries, imports, events) && OncePerPath(entries)
    ensures forall a, b :: 0 <= a < b < |events| ==> events[a].entry.path != events[b].entry.path
    ensures forall event :: event in events ==>
              event.entry in entries && event.entry.path in imports && event.handle == imports[event.entry.path]
    ensures forall e :: e in entries ==> e.path in imports && Fired(e, imports[e.path]) in events
  {
    forall e | e in entries ensures e.path in imports && Fired(e, imports[e.path]) in events {
      var i :| 0 <= i < |entries| && entries[i] == e;
      assert events[i] in events;
    }
  }

  /** Over a whole run: any two hand-overs of one path with one time, counted one by one, are in different polls and
      have a listing between them that lacks the path or shows another time. */
  lemma HandOversAreSeparated(c: Config, inputs: seq<Input>, i: nat, a: nat, j: nat, b: nat)
    requires Plausible(inputs) && i <= j < |inputs| && (i == j ==> a < b)
    requires a < |PollAt(c, inputs, i).events| && b < |PollAt(c, inputs, j).events|
    requires var x, y := PollAt(c, inputs, i).events[a].entry, PollAt(c, inputs, j).events[b].entry;
             x.path == y.path && x.modified == y.modified
    ensures i < j
    ensures var x := PollAt(c, inputs, i).events[a].entry;
            exists k :: i < k < j && Separates(c, inputs[k], x.path, x.modified)
  {
    var x, y := PollAt(c, inputs, i).events[a], PollAt(c, inputs, j).events[b];
    assert x in PollAt(c, inputs, i).events && y in PollAt(c, inputs, j).events;
    if i == j {
      if inputs[i].listing.Some? {
        EachFileOnce(c, After(c, inputs[..i]), inputs[i]);
      }
      assert false;
    }
    AtMostOnce(c, inputs, i, j, x.entry.path, x.entry.modified);
  }

  /** It does happen: two files settle together and the second cannot be imported. The first is lost. */
  lemma FailedImportDropsOthers(c: Config, a: DirEntry, b: DirEntry, handle: Handle)
    requires c.existing && c.wanted == [] && a.path != b.path
    ensures var inputs := [Input(Some([a, b]), map[]), Input(Some([a, b]), map[a.path := handle])];
            PollAt(c, inputs, 1).failed && Emits(PollAt(c, inputs, 1), a.path, a.modified)
  {
    var inputs := [Input(Some([a, b]), map[]), Input(Some([a, b]), map[a.path := handle])];
    FirstPollOfTwo(c, a, b);
    assert After(c, inputs[..1]) == SeenOnce(a, b) by {
      AfterOneMore(c, inputs, 0);
      assert inputs[..0] == [];
    }
    SecondPollOfTwo(c, a, b, handle);
    assert PollAt(c, inputs, 1) == PollOnce(c, SeenOnce(a, b), inputs[1]);
    assert Fired(a, handle) in PollAt(c, inputs, 1).events;
  }

  /** What is remembered once two files have been seen for the first time. */
  function SeenOnce(a: DirEntry, b: DirEntry): Memory {
    Memory(map[a.path := Seen(a.size, a.modified, 1)][b.path := Seen(b.size, b.modified, 1)], map[], true)
  }

  lemma PresentOfTwo(c: Config, a: DirEntry, b: DirEntry)
    requires c.wanted == []
    ensures Present(c, [a, b]) == [a, b] && a.path in Paths([a, b]) && b.path in Paths([a, b])
  {
    assert [a, b][1..] == [b] && [b][1..] == [];
    assert a in [a, b] && b in [a, b];
  }

  lemma FirstPollOfTwo(c: Config, a: DirEntry, b: DirEntry)
    requires c.existing && c.wanted == [] && a.path != b.path
    ensures PollOnce(c, Memory(map[], map[], false), Input(Some([a, b]), map[])).memory == SeenOnce(a, b)
  {
    PresentOfTwo(c, a, b);
    var w0 := Memory(map[], map[], true);
    assert Forget(Prime(c, Memory(map[], map[], false), [a, b]), [a, b]) == w0;
    SweepOfTwo(w0, a, b, map[]);
  }

  lemma SecondPollOfTwo(c: Config, a: DirEntry, b: DirEntry, handle: Handle)
    requires c.existing && c.wanted == [] && a.path != b.path
    ensures var second := PollOnce(c, SeenOnce(a, b), Input(Some([a, b]), map[a.path := handle]));
            second.failed && Fired(a, handle) in second.events
  {
    PresentOfTwo(c, a, b);
    var w1 := SeenOnce(a, b);
    assert Forget(Prime(c, w1, [a, b]), [a, b]) == w1;
    SweepOfTwo(w1, a, b, map[a.path := handle]);
  }

  lemma SweepOfTwo(w: Memory, a: DirEntry, b: DirEntry, imports: map<RawPath, Handle>)
    requires a.path != b.path
    ensures var (w1, first) := Visit(w, a, imports);
            var (w2, second) := Visit(w1, b, imports);
            var s := Sweep(w, [a, b], imports);
            && (!first.ImportFailed? ==> s.memory == w2 && (s.failed <==> second.ImportFailed?))
            && (first.Emitted? ==> first.event in s.events)
  {
    assert Front([a, b]) == [a] && Front([a]) == [];
    assert Sweep(w, [], imports) == Swept(w, [], false);
    var one := Sweep(w, [a], imports);
    if Visit(w, a, imports).1.Emitted? {
      assert one.events == [] + [Visit(w, a, imports).1.event];
    }
  }

  // -- the two tables --------------------------------------------------------------------------------

  ghost predicate ViewOk(w: Memory, p: RawPath) {
    && !(ViewOf(w, p).observed.Some? && ViewOf(w, p).emitted.Some?)
    && (!w.primed ==> ViewOf(w, p) == View(None, None))
  }

  lemma ViewStaysOk(c: Config, w: Memory, input: Input, p: RawPath)
    requires ViewOk(w, p) && (input.listing.Some? ==> OncePerPath(input.listing.value))
    ensures ViewOk(PollOnce(c, w, input).memory, p)
  {
    PrimedAfterListing(c, w, input);
    if input.listing.Some? {
      var e := ShownOrNot(c, input, p);
      match e {
        case Some(entry) =>
          PollOnShown(c, w, input, entry, 0);
          StartOfShown(c, w, input.listing.value, entry);
        case None => PollOnHidden(c, w, input, p, 0);
      }
    }
  }

  lemma {:induction false} ViewAlwaysOk(c: Config, inputs: seq<Input>, n: nat, p: RawPath)
    requires Plausible(inputs) && n <= |inputs|
    ensures ViewOk(After(c, inputs[..n]), p)
  {
    if n > 0 {
      ViewAlwaysOk(c, inputs, n - 1, p);
      ViewStaysOk(c, After(c, inputs[..n - 1]), inputs[n - 1], p);
      AfterOneMore(c, inputs, n - 1);
    }
  }

  /** After every poll that obtained a listing, failed imports or not, no path is both being watched
      and remembered as handed over, and both tables are about files the filtered listing shows. */
  lemma TablesAreDisjointAndCurrent(c: Config, inputs: seq<Input>, i: nat)
    requires Plausible(inputs) && i < |inputs| && inputs[i].listing.Some?
    ensures var w := After(c, inputs[..i + 1]);
            var shown := Paths(Present(c, inputs[i].listing.value));
            w.observed.Keys !! w.emitted.Keys && w.observed.Keys <= shown && w.emitted.Keys <= shown
  {
    var w := After(c, inputs[..i + 1]);
    AfterOneMore(c, inputs, i);
    forall p ensures !(p in w.observed && p in w.emitted) {
      ViewAlwaysOk(c, inputs, i + 1, p);
    }
    forall p | p in w.observed || p in w.emitted ensures p in Paths(Present(c, inputs[i].listing.value)) {
      var e := ShownOrNot(c, inputs[i], p);
      if e.None? {
        PollOnHidden(c, After(c, inputs[..i]), inputs[i], p, 0);
      }
    }
  }

  // -- only when settled, and then soon --------------------------------------------------------------

  /** The listing before, skipping polls that obtained none. */
  function LastListing(inputs: seq<Input>): Option<seq<DirEntry>> {
    if inputs == [] then None
    else if Last(inputs).listing.Some? then Last(inputs).listing
    else LastListing(Front(inputs))
  }

  /** Nothing but polls without a listing between the two. */
  ghost predicate NoListingBetween(inputs: seq<Input>, i: nat, n: nat)
    requires n <= |inputs|
  {
    forall k :: i < k < n ==> inputs[k].listing.None?
  }

  /** The latest poll that obtained a listing, if there was one, looked at all of it. */
  ghost predicate LastSweepWasWhole(c: Config, inputs: seq<Input>, n: nat)
    requires n <= |inputs|
  {
    forall i: nat :: i < n && inputs[i].listing.Some? && NoListingBetween(inputs, i, n) ==> !PollAt(c, inputs, i).failed
  }

  predicate SameContent(e: DirEntry, f: DirEntry) {
    e.path == f.path && e.size == f.size && e.modified == f.modified
  }

  /** What is being watched is what the last listing showed, and it has been the same for one look at
      most: at two it would have been handed over. */
  ghost predicate Tracks(c: Config, w: Memory, last: Option<seq<DirEntry>>, p: RawPath) {
    var seen := ViewOf(w, p).observed;
    seen.Some? ==>
      && seen.value.stableFor < STABLE_POLLS && last.Some?
      && exists e :: e in Present(c, last.value) && e.path == p && e.size == seen.value.size
                     && e.modified == seen.value.modified
  }

  lemma PollTracks(c: Config, w: Memory, input: Input, p: RawPath)
    requires input.listing.Some? && OncePerPath(input.listing.value) && ViewOk(w, p)
    requires !PollOnce(c, w, input).failed
    ensures Tracks(c, PollOnce(c, w, input).memory, input.listing, p)
  {
    var e := ShownOrNot(c, input, p);
    match e {
      case Some(entry) =>
        PollOnShown(c, w, input, entry, 0);
        StartOfShown(c, w, input.listing.value, entry);
      case None => PollOnHidden(c, w, input, p, 0);
    }
  }

  lemma StillWhole(c: Config, inputs: seq<Input>, n: nat)
    requires 0 < n <= |inputs| && inputs[n - 1].listing.None? && LastSweepWasWhole(c, inputs, n)
    ensures LastSweepWasWhole(c, inputs, n - 1)
  {
    forall i: nat | i < n - 1 && inputs[i].listing.Some? && NoListingBetween(inputs, i, n - 1)
      ensures !PollAt(c, inputs, i).failed
    {
      assert NoListingBetween(inputs, i, n);
    }
  }

  lemma {:induction false} AlwaysTracks(c: Config, inputs: seq<Input>, n: nat, p: RawPath)
    requires Plausible(inputs) && n <= |inputs| && LastSweepWasWhole(c, inputs, n)
    ensures Tracks(c, After(c, inputs[..n]), LastListing(inputs[..n]), p)
  {
    if n > 0 {
      ViewAlwaysOk(c, inputs, n - 1, p);
      AfterOneMore(c, inputs, n - 1);
      assert Front(inputs[..n]) == inputs[..n - 1];
      if inputs[n - 1].listing.Some? {
        assert NoListingBetween(inputs, n - 1, n);
        PollTracks(c, After(c, inputs[..n - 1]), inputs[n - 1], p);
      } else {
        StillWhole(c, inputs, n);
        AlwaysTracks(c, inputs, n - 1, p);
      }
    }
  }

  /** A file is handed over only when the listing before showed the very same size and time, if no import failed
      in the poll of that listing, whatever failed before. */
  lemma OnlyWhenSettled(c: Config, inputs: seq<Input>, j: nat, e: DirEntry)
    requires Plausible(inputs) && j < |inputs| && LastSweepWasWhole(c, inputs, j)
    requires inputs[j].listing.Some? && e in Present(c, inputs[j].listing.value)
    requires Emits(PollAt(c, inputs, j), e.path, e.modified)
    ensures LastListing(inputs[..j]).Some?
    ensures exists f :: f in Present(c, LastListing(inputs[..j]).value) && SameContent(e, f)
  {
    var w := After(c, inputs[..j]);
    AlwaysTracks(c, inputs, j, e.path);
    ViewAlwaysOk(c, inputs, j, e.path);
    PollOnShown(c, w, inputs[j], e, e.modified);
    StartOfShown(c, w, inputs[j].listing.value, e);
    var seen := ViewOf(w, e.path).observed;
    assert seen.Some? && seen.value.size == e.size && seen.value.modified == e.modified;
    var f :| f in Present(c, LastListing(inputs[..j]).value) && f.path == e.path
             && f.size == seen.value.size && f.modified == seen.value.modified;
    assert SameContent(e, f);
  }

  /** `j` is the next poll after `i` that obtained a listing. */
  ghost predicate NextListing(inputs: seq<Input>, i: nat, j: nat) {
    && i < j < |inputs| && inputs[i].listing.Some? && inputs[j].listing.Some?
    && forall k :: i < k < j ==> inputs[k].listing.None?
  }

  lemma {:induction false} QuietBetweenListings(c: Config, inputs: seq<Input>, i: nat, j: nat)
    requires i <= j <= |inputs| && forall k :: i <= k < j ==> inputs[k].listing.None?
    ensures After(c, inputs[..j]) == After(c, inputs[..i])
    decreases j
  {
    if i < j {
      QuietBetweenListings(c, inputs, i, j - 1);
      AfterOneMore(c, inputs, j - 1);
    }
  }

  /** How far a file with this content has come: handed over, or the same for at least `looks` looks. */
  ghost predicate Reached(v: View, e: DirEntry, looks: nat) {
    || v.emitted == Some(e.modified)
    || (v.emitted.None? && v.observed.Some? && v.observed.value.size == e.size
        && v.observed.value.modified == e.modified && v.observed.value.stableFor >= looks)
  }

  /** Seeing the same file once more, in a poll that imports what it must, brings it one look further. */
  lemma OneLookFurther(c: Config, w: Memory, input: Input, e: DirEntry, looks: nat)
    requires input.listing.Some? && OncePerPath(input.listing.value) && e in Present(c, input.listing.value)
    requires !PollOnce(c, w, input).failed && w.primed && Reached(ViewOf(w, e.path), e, looks)
    ensures var v := ViewOf(PollOnce(c, w, input).memory, e.path);
            && Reached(v, e, looks + 1)
            && (looks + 1 >= STABLE_POLLS ==> v.emitted == Some(e.modified))
            && (ViewOf(w, e.path).emitted != Some(e.modified) && looks + 1 >= STABLE_POLLS ==>
                  Emits(PollOnce(c, w, input), e.path, e.modified))
  {
    PollOnShown(c, w, input, e, e.modified);
    StartOfShown(c, w, input.listing.value, e);
  }

  lemma FirstLook(c: Config, w: Memory, input: Input, e: DirEntry)
    requires input.listing.Some? && OncePerPath(input.listing.value) && e in Present(c, input.listing.value)
    requires !PollOnce(c, w, input).failed && ViewOk(w, e.path)
    ensures var v, start := ViewOf(PollOnce(c, w, input).memory, e.path), StartView(c, w, input.listing.value, e.path);
            && Reached(v, e, 0)
            && (start == View(None, None) ==> Reached(v, e, 1) && v.emitted.None?)
            && (v.emitted == Some(e.modified) ==>
                  start.emitted == Some(e.modified) || Emits(PollOnce(c, w, input), e.path, e.modified))
  {
    PollOnShown(c, w, input, e, e.modified);
    StartOfShown(c, w, input.listing.value, e);
  }

  ghost predicate ShownAt(c: Config, inputs: seq<Input>, i: nat, e: DirEntry)
    requires i < |inputs|
  {
    inputs[i].listing.Some? && e in Present(c, inputs[i].listing.value) && !PollAt(c, inputs, i).failed
  }

  /** A file that three listings in a row show unchanged has been handed over by the third, in one of
      the three or before them. */
  lemma HandedOverByTheThird(c: Config, inputs: seq<Input>, i: nat, j: nat, k: nat, e: DirEntry)
    requires Plausible(inputs) && NextListing(inputs, i, j) && NextListing(inputs, j, k)
    requires ShownAt(c, inputs, i, e) && ShownAt(c, inputs, j, e) && ShownAt(c, inputs, k, e)
    ensures ViewOf(After(c, inputs[..k + 1]), e.path).emitted == Some(e.modified)
    ensures || StartView(c, After(c, inputs[..i]), inputs[i].listing.value, e.path).emitted == Some(e.modified)
            || Emits(PollAt(c, inputs, i), e.path, e.modified)
            || Emits(PollAt(c, inputs, j), e.path, e.modified)
            || Emits(PollAt(c, inputs, k), e.path, e.modified)
  {
    ReachedAtFirst(c, inputs, i, j, e);
    TwoMoreLooks(c, inputs, j, k, e);
  }

  lemma TwoMoreLooks(c: Config, inputs: seq<Input>, j: nat, k: nat, e: DirEntry)
    requires Plausible(inputs) && NextListing(inputs, j, k) && ShownAt(c, inputs, j, e) && ShownAt(c, inputs, k, e)
    requires After(c, inputs[..j]).primed && Reached(ViewOf(After(c, inputs[..j]), e.path), e, 0)
    ensures ViewOf(After(c, inputs[..k + 1]), e.path).emitted == Some(e.modified)
    ensures || ViewOf(After(c, inputs[..j]), e.path).emitted == Some(e.modified)
            || Emits(PollAt(c, inputs, j), e.path, e.modified)
            || Emits(PollAt(c, inputs, k), e.path, e.modified)
  {
    OneLookFurther(c, After(c, inputs[..j]), inputs[j], e, 0);
    EmittedAtOrBefore(c, After(c, inputs[..j]), inputs[j], e);
    PrimedAfterListing(c, After(c, inputs[..j]), inputs[j]);
    AfterOneMore(c, inputs, j);
    QuietBetweenListings(c, inputs, j + 1, k);
    OneLookFurther(c, After(c, inputs[..k]), inputs[k], e, 1);
    AfterOneMore(c, inputs, k);
  }

  lemma ReachedAtFirst(c: Config, inputs: seq<Input>, i: nat, j: nat, e: DirEntry)
    requires Plausible(inputs) && NextListing(inputs, i, j) && ShownAt(c, inputs, i, e)
    ensures var w := After(c, inputs[..j]);
            && w.primed && Reached(ViewOf(w, e.path), e, 0)
            && (ViewOf(w, e.path).emitted == Some(e.modified) ==>
                  || StartView(c, After(c, inputs[..i]), inputs[i].listing.value, e.path).emitted == Some(e.modified)
                  || Emits(PollAt(c, inputs, i), e.path, e.modified))
  {
    ViewAlwaysOk(c, inputs, i, e.path);
    FirstLook(c, After(c, inputs[..i]), inputs[i], e);
    PrimedAfterListing(c, After(c, inputs[..i]), inputs[i]);
    AfterOneMore(c, inputs, i);
    QuietBetweenListings(c, inputs, i + 1, j);
  }

  lemma EmittedAtOrBefore(c: Config, w: Memory, input: Input, e: DirEntry)
    requires input.listing.Some? && OncePerPath(input.listing.value) && e in Present(c, input.listing.value) && w.primed
    ensures ViewOf(PollOnce(c, w, input).memory, e.path).emitted == Some(e.modified) ==>
              ViewOf(w, e.path).emitted == Some(e.modified) || Emits(PollOnce(c, w, input), e.path, e.modified)
  {
    PollOnShown(c, w, input, e, e.modified);
    StartOfShown(c, w, input.listing.value, e);
  }

  /** A file the watcher knew nothing about is handed over by the second listing that shows it, if it
      has not changed: not earlier, not later. */
  lemma NewFileComesAtSecondLook(c: Config, inputs: seq<Input>, i: nat, j: nat, e: DirEntry)
    requires Plausible(inputs) && NextListing(inputs, i, j)
    requires ShownAt(c, inputs, i, e) && ShownAt(c, inputs, j, e)
    requires StartView(c, After(c, inputs[..i]), inputs[i].listing.value, e.path) == View(None, None)
    ensures !Emits(PollAt(c, inputs, i), e.path, e.modified) && Emits(PollAt(c, inputs, j), e.path, e.modified)
  {
    ViewAlwaysOk(c, inputs, i, e.path);
    FirstLook(c, After(c, inputs[..i]), inputs[i], e);
    PollOnShown(c, After(c, inputs[..i]), inputs[i], e, e.modified);
    PrimedAfterListing(c, After(c, inputs[..i]), inputs[i]);
    AfterOneMore(c, inputs, i);
    QuietBetweenListings(c, inputs, i + 1, j);
    OneLookFurther(c, After(c, inputs[..j]), inputs[j], e, 1);
  }

  /** The file was being watched with another content than this entry shows. */
  ghost predicate Changed(v: View, e: DirEntry) {
    v.observed.Some? && (v.observed.value.size != e.size || v.observed.value.modified != e.modified)
  }

  /** How long a watched file has been the same, exactly. */
  ghost predicate StableFor(v: View, e: DirEntry, looks: nat) {
    v == View(Some(Seen(e.size, e.modified, looks)), None)
  }

  lemma ChangeStartsOver(c: Config, w: Memory, input: Input, e: DirEntry)
    requires input.listing.Some? && OncePerPath(input.listing.value) && e in Present(c, input.listing.value)
    requires !PollOnce(c, w, input).failed && ViewOk(w, e.path) && Changed(ViewOf(w, e.path), e)
    ensures !Emits(PollOnce(c, w, input), e.path, e.modified)
    ensures StableFor(ViewOf(PollOnce(c, w, input).memory, e.path), e, 0)
  {
    PollOnShown(c, w, input, e, e.modified);
    StartOfShown(c, w, input.listing.value, e);
  }

  lemma OneMoreStableLook(c: Config, w: Memory, input: Input, e: DirEntry, looks: nat)
    requires input.listing.Some? && OncePerPath(input.listing.value) && e in Present(c, input.listing.value)
    requires !PollOnce(c, w, input).failed && w.primed && StableFor(ViewOf(w, e.path), e, looks)
    ensures looks + 1 < STABLE_POLLS ==>
              && !Emits(PollOnce(c, w, input), e.path, e.modified)
              && StableFor(ViewOf(PollOnce(c, w, input).memory, e.path), e, looks + 1)
    ensures looks + 1 >= STABLE_POLLS ==> Emits(PollOnce(c, w, input), e.path, e.modified)
  {
    PollOnShown(c, w, input, e, e.modified);
    StartOfShown(c, w, input.listing.value, e);
  }

  lemma AfterNextListing(c: Config, inputs: seq<Input>, i: nat, j: nat)
    requires NextListing(inputs, i, j)
    ensures After(c, inputs[..j]) == PollOnce(c, After(c, inputs[..i]), inputs[i]).memory
    ensures After(c, inputs[..j]).primed
  {
    PrimedAfterListing(c, After(c, inputs[..i]), inputs[i]);
    AfterOneMore(c, inputs, i);
    QuietBetweenListings(c, inputs, i + 1, j);
  }

  lemma ChangeInARun(c: Config, inputs: seq<Input>, i: nat, j: nat, e: DirEntry)
    requires Plausible(inputs) && NextListing(inputs, i, j) && ShownAt(c, inputs, i, e)
    requires Changed(ViewOf(After(c, inputs[..i]), e.path), e)
    ensures !Emits(PollAt(c, inputs, i), e.path, e.modified)
    ensures After(c, inputs[..j]).primed && StableFor(ViewOf(After(c, inputs[..j]), e.path), e, 0)
  {
    ViewAlwaysOk(c, inputs, i, e.path);
    ChangeStartsOver(c, After(c, inputs[..i]), inputs[i], e);
    AfterNextListing(c, inputs, i, j);
  }

  lemma FirstStableLook(c: Config, inputs: seq<Input>, j: nat, k: nat, e: DirEntry)
    requires Plausible(inputs) && NextListing(inputs, j, k) && ShownAt(c, inputs, j, e)
    requires After(c, inputs[..j]).primed && StableFor(ViewOf(After(c, inputs[..j]), e.path), e, 0)
    ensures !Emits(PollAt(c, inputs, j), e.path, e.modified)
    ensures After(c, inputs[..k]).primed && StableFor(ViewOf(After(c, inputs[..k]), e.path), e, 1)
  {
    OneMoreStableLook(c, After(c, inputs[..j]), inputs[j], e, 0);
    AfterNextListing(c, inputs, j, k);
  }

  lemma SecondStableLook(c: Config, inputs: seq<Input>, k: nat, e: DirEntry)
    requires Plausible(inputs) && k < |inputs| && ShownAt(c, inputs, k, e)
    requires After(c, inputs[..k]).primed && StableFor(ViewOf(After(c, inputs[..k]), e.path), e, 1)
    ensures Emits(PollAt(c, inputs, k), e.path, e.modified)
  {
    OneMoreStableLook(c, After(c, inputs[..k]), inputs[k], e, 1);
  }

  /** A file that changes while it is being watched starts over, one look behind a new one: the listing that
      shows the change does not count, so it is handed over by the second listing after that one, not earlier. */
  lemma ChangedFileComesAtThirdLook(c: Config, inputs: seq<Input>, i: nat, j: nat, k: nat, e: DirEntry)
    requires Plausible(inputs) && NextListing(inputs, i, j) && NextListing(inputs, j, k)
    requires ShownAt(c, inputs, i, e) && ShownAt(c, inputs, j, e) && ShownAt(c, inputs, k, e)
    requires Changed(ViewOf(After(c, inputs[..i]), e.path), e)
    ensures !Emits(PollAt(c, inputs, i), e.path, e.modified) && !Emits(PollAt(c, inputs, j), e.path, e.modified)
    ensures Emits(PollAt(c, inputs, k), e.path, e.modified)
  {
    ChangeInARun(c, inputs, i, j, e);
    FirstStableLook(c, inputs, j, k, e);
    SecondStableLook(c, inputs, k, e);
  }
}
