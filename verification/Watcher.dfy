/** The folder watcher: a poll loop that turns listings into events once, and only for files that
    have stopped changing. */
module Watcher {
  import opened Common
  import opened FileSystem
  import opened BrokerState
  import opened Text

  /** How many looks at the same content a file needs. The first look ever at a file counts, a look that finds a
      change does not. */
  const STABLE_POLLS: nat := 2

  datatype Seen = Seen(size: nat, modified: nat, stableFor: nat)

  datatype Memory = Memory(observed: map<RawPath, Seen>, emitted: map<RawPath, nat>, primed: bool)

  /** The settings of one watcher: the extensions it wants (none means every file) and whether it
      starts with the files already there. */
  datatype Config = Config(wanted: seq<string>, existing: bool)

  /** What one poll meets: a listing, unless the folder could not be listed, and the handles the
      broker gives for the files it agrees to import. */
  datatype Input = Input(listing: Option<seq<DirEntry>>, imports: map<RawPath, Handle>)

  datatype Fired = Fired(entry: DirEntry, handle: Handle)

  // -- one poll as a function ---------------------------------------------------------------

  /** What follows the last dot, when something precedes it. */
  function Extension(name: string): string {
    ExtensionFrom(name, |name|)
  }

  function ExtensionFrom(name: string, k: nat): string
    requires k <= |name|
  {
    if k <= 1 then ""
    else if name[k - 1] == '.' then name[k..]
    else ExtensionFrom(name, k - 1)
  }

  predicate Wanted(c: Config, e: DirEntry) {
    c.wanted == [] || LowerAll(Extension(e.name)) in c.wanted
  }

  function Present(c: Config, entries: seq<DirEntry>): seq<DirEntry> {
    Filter((e: DirEntry) => Wanted(c, e), entries)
  }

  function MarkAll(emitted: map<RawPath, nat>, entries: seq<DirEntry>): map<RawPath, nat> {
    if entries == [] then emitted
    else MarkAll(emitted, Front(entries))[Last(entries).path := Last(entries).modified]
  }

  /** The first listing says what was already there. */
  function Prime(c: Config, w: Memory, entries: seq<DirEntry>): Memory {
    if w.primed then w
    else w.(primed := true, emitted := if c.existing then w.emitted else MarkAll(w.emitted, entries))
  }

  function Paths(entries: seq<DirEntry>): set<RawPath> {
    set e | e in entries :: e.path
  }

  /** A file that has gone is forgotten. */
  function Forget(w: Memory, present: seq<DirEntry>): Memory {
    w.(observed := map p | p in w.observed && p in Paths(present) :: w.observed[p],
       emitted := map p | p in w.emitted && p in Paths(present) :: w.emitted[p])
  }

  /** One more look at a file: how long it has been the same. */
  function Look(w: Memory, e: DirEntry): Seen {
    var seen := if e.path in w.observed then w.observed[e.path] else Seen(e.size, e.modified, 0);
    if seen.size == e.size && seen.modified == e.modified
    then seen.(stableFor := seen.stableFor + 1)
    else Seen(e.size, e.modified, 0)
  }

  predicate AlreadyEmitted(w: Memory, e: DirEntry) {
    e.path in w.emitted && w.emitted[e.path] == e.modified
  }

  datatype Visited = Passed | Emitted(event: Fired) | ImportFailed

  function Visit(w: Memory, e: DirEntry, imports: map<RawPath, Handle>): (Memory, Visited) {
    if AlreadyEmitted(w, e) then (w, Passed)
    else
      var seen := Look(w, e);
      var w1 := w.(emitted := w.emitted - {e.path}, observed := w.observed[e.path := seen]);
      if seen.stableFor < STABLE_POLLS then (w1, Passed)
      else if e.path !in imports then (w1, ImportFailed)
      else (w1.(emitted := w1.emitted[e.path := e.modified], observed := w1.observed - {e.path}),
            Emitted(Fired(e, imports[e.path])))
  }

  /** The files of one listing, in order; an import that fails ends the sweep where it is. */
  datatype Swept = Swept(memory: Memory, events: seq<Fired>, failed: bool)

  function Sweep(w: Memory, present: seq<DirEntry>, imports: map<RawPath, Handle>): Swept {
    if present == [] then Swept(w, [], false)
    else
      var before := Sweep(w, Front(present), imports);
      if before.failed then before
      else
        var (w', visited) := Visit(before.memory, Last(present), imports);
        match visited
        case Passed => Swept(w', before.events, false)
        case Emitted(event) => Swept(w', before.events + [event], false)
        case ImportFailed => Swept(w', before.events, true)
  }

  /** A poll that cannot list changes nothing. */
  function PollOnce(c: Config, w: Memory, input: Input): Swept {
    match input.listing
    case None => Swept(w, [], true)
    case Some(entries) =>
      Sweep(Forget(Prime(c, w, entries), Present(c, entries)), Present(c, entries), input.imports)
  }

  /** What the caller gets: the events, unless the poll ended in an error. */
  function Delivered(s: Swept): Option<seq<Fired>> {
    if s.failed then None else Some(s.events)
  }

  // -- the object ----------------------------------------------------------------------------

  class FolderWatcher {
    var observed: map<RawPath, Seen>
    var emitted: map<RawPath, nat>
    var primed: bool

    ghost function State(): Memory
      reads this
    {
      Memory(observed, emitted, primed)
    }

    constructor ()
      ensures State() == Memory(map[], map[], false)
    {
      observed, emitted, primed := map[], map[], false;
    }

    method Poll(c: Config, input: Input) returns (fired: Option<seq<Fired>>)
      modifies this
      ensures var swept := PollOnce(c, old(State()), input);
              State() == swept.memory && fired == Delivered(swept)
    {
      if input.listing.None? {
        return None;
      }
      var entries := input.listing.value;
      if !primed {
        primed := true;
        if !c.existing {
          MarkExisting(entries);
        }
      }
      assert State() == Prime(c, old(State()), entries);

      var present := Present(c, entries);
      var stillHere := Paths(present);
      observed := map p | p in observed && p in stillHere :: observed[p];
      emitted := map p | p in emitted && p in stillHere :: emitted[p];
      fired := SweepFiles(present, input.imports);
    }

    /** The body of the loop over one listing. */
    method VisitFile(entry: DirEntry, imports: map<RawPath, Handle>) returns (visited: Visited)
      modifies this`observed, this`emitted
      ensures (State(), visited) == Visit(old(State()), entry, imports)
    {
      if entry.path in emitted {
        if emitted[entry.path] == entry.modified {
          return Passed;
        }
        emitted := emitted - {entry.path};
      }
      assert emitted == old(emitted) - {entry.path};
      var seen := if entry.path in observed then observed[entry.path] else Seen(entry.size, entry.modified, 0);
      if seen.size == entry.size && seen.modified == entry.modified {
        seen := seen.(stableFor := seen.stableFor + 1);
      } else {
        seen := Seen(entry.size, entry.modified, 0);
      }
      observed := observed[entry.path := seen];
      if seen.stableFor < STABLE_POLLS {
        return Passed;
      }
      if entry.path !in imports {
        return ImportFailed;
      }
      emitted := emitted[entry.path := entry.modified];
      observed := observed - {entry.path};
      visited := Emitted(Fired(entry, imports[entry.path]));
    }

    method SweepFiles(present: seq<DirEntry>, imports: map<RawPath, Handle>) returns (fired: Option<seq<Fired>>)
      modifies this`observed, this`emitted
      ensures var swept := Sweep(old(State()), present, imports);
              State() == swept.memory && fired == Delivered(swept)
    {
      var events := [];
      var i := 0;
      while i < |present|
        invariant 0 <= i <= |present|
        invariant Sweep(old(State()), present[..i], imports) == Swept(State(), events, false)
      {
        assert Front(present[..i + 1]) == present[..i] && Last(present[..i + 1]) == present[i];
        var visited := VisitFile(present[i], imports);
        i := i + 1;
        match visited {
          case Passed =>
          case Emitted(event) => events := events + [event];
          case ImportFailed =>
            SweepStopsAtFailure(old(State()), present, imports, i);
            return None;
        }
      }
      assert present[..i] == present;
      fired := Some(events);
    }

    method MarkExisting(entries: seq<DirEntry>)
      modifies this`emitted
      ensures emitted == MarkAll(old(emitted), entries)
    {
      var i := 0;
      while i < |entries|
        invariant 0 <= i <= |entries|
        invariant emitted == MarkAll(old(emitted), entries[..i])
      {
        assert Front(entries[..i + 1]) == entries[..i];
        emitted := emitted[entries[i].path := entries[i].modified];
        i := i + 1;
      }
      assert entries[..i] == entries;
    }
  }

  lemma {:induction false} SweepStopsAtFailure(w: Memory, present: seq<DirEntry>, imports: map<RawPath, Handle>, i: nat)
    requires i <= |present| && Sweep(w, present[..i], imports).failed
    ensures Sweep(w, present, imports) == Sweep(w, present[..i], imports)
    decreases |present|
  {
    if i == |present| {
      assert present[..i] == present;
    } else {
      assert Front(present)[..i] == present[..i];
      SweepStopsAtFailure(w, Front(present), imports, i);
    }
  }

  // -- which files are wanted -------------------------------------------------------------------

  lemma {:induction false} ExtensionFound(name: string, stem: string, extension: string, k: nat)
    requires name == stem + ['.'] + extension && stem != [] && '.' !in extension && |stem| < k <= |name|
    ensures ExtensionFrom(name, k) == extension
    decreases k
  {
    if k - 1 == |stem| {
      assert name[k..] == extension;
    } else {
      assert name[k - 1] == extension[k - 2 - |stem|];
      ExtensionFound(name, stem, extension, k - 1);
    }
  }

  lemma {:induction false} NoExtension(name: string, k: nat)
    requires k <= |name| && forall i :: 1 <= i < |name| ==> name[i] != '.'
    ensures ExtensionFrom(name, k) == ""
    decreases k
  {
    if k > 1 {
      NoExtension(name, k - 1);
    }
  }

  /** A file is looked at exactly when no extensions were asked for, or what follows the last dot in its
      name is one of them in small letters. A dot at the very front starts no extension. */
  lemma WantedByExtension(c: Config, entries: seq<DirEntry>, e: DirEntry, stem: string, extension: string)
    requires stem != [] && '.' !in extension && e in entries
    ensures e.name == stem + ['.'] + extension ==>
              (e in Present(c, entries) <==> c.wanted == [] || LowerAll(extension) in c.wanted)
    ensures (forall i :: 1 <= i < |e.name| ==> e.name[i] != '.') ==>
              (e in Present(c, entries) <==> c.wanted == [] || "" in c.wanted)
  {
    if e.name == stem + ['.'] + extension {
      ExtensionFound(e.name, stem, extension, |e.name|);
    }
    if forall i :: 1 <= i < |e.name| ==> e.name[i] != '.' {
      NoExtension(e.name, |e.name|);
      assert LowerAll("") == "";
    }
  }
}
