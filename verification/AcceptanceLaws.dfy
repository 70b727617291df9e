/** What an accepted run guarantees about the serial lines themselves, and one thing it does not. */
module AcceptanceLaws {
  import opened Common
  import opened ScenarioJudge
  import opened Acceptance

  predicate IsFailLine(line: SerialLine, sid: ScenarioId) {
    line.AssertLine? && line.sid == sid && !line.pass
  }

  lemma {:induction false} SpokenFailuresAreLines(lines: seq<SerialLine>, sid: ScenarioId)
    ensures NoFailSpoken(SpokenOf(lines, sid)) <==> forall i :: 0 <= i < |lines| ==> !IsFailLine(lines[i], sid)
  {
    if lines != [] {
      SpokenFailuresAreLines(Front(lines), sid);
      assert forall i :: 0 <= i < |lines| - 1 ==> lines[i] == Front(lines)[i];
      var before, now := SpokenOf(Front(lines), sid), SpokenOf(lines, sid);
      assert forall i :: 0 <= i < |before| ==> before[i] == now[i];
      if IsFailLine(Last(lines), sid) {
        assert !now[|before|].pass;
      }
    }
  }

  /** Where it was needed: which cycles, and which scenarios in them, acceptance rests on. */
  ghost predicate RestsOn(cycles: seq<Cycle>, c: Cycle, sid: ScenarioId) {
    || ((ByName(cycles, CycleA) == Some(c) || ByName(cycles, CycleB) == Some(c)) && sid in FULL_REQUIRED)
    || (c in UpgradesOf(cycles) && sid in UPGRADE_REQUIRED)
  }

  lemma ProvesEach(c: Cycle, ids: seq<ScenarioId>, rules: Rules, sid: ScenarioId)
    requires Proves(c, ids, rules) && sid in ids
    ensures sid in c.records && ScenarioVerdict(c, sid, rules).result == Pass
  {
    var i :| 0 <= i < |ids| && ids[i] == sid;
    PassExactly(sid, c.records[sid], SpokenOf(c.serial, sid), SummaryOf(c.serial, sid),
                Artefact(c.installer.file, c.installer.sha256), rules(sid));
  }

  lemma HeardToPass(c: Cycle, ids: seq<ScenarioId>, rules: Rules, sid: ScenarioId)
    requires Proves(c, ids, rules) && sid in ids
    ensures sid in c.records && c.records[sid].asserts != []
    ensures NamesDiffer(c.records[sid].asserts) ==>
              && multiset(SpokenOf(c.serial, sid)) == multiset(Wanted(c.records[sid].asserts))
              && NoFailSpoken(SpokenOf(c.serial, sid))
  {
    ProvesEach(c, ids, rules, sid);
    var rec, spoken, summary := c.records[sid], SpokenOf(c.serial, sid), SummaryOf(c.serial, sid);
    var expected := Artefact(c.installer.file, c.installer.sha256);
    PassExactly(sid, rec, spoken, summary, expected, rules(sid));
    if NamesDiffer(rec.asserts) {
      SerialIsExactlyTheChecks(sid, rec, spoken, summary, expected, rules(sid));
    }
  }

  lemma OneOfThree(a: Cycle, b: Cycle, upgrades: seq<Cycle>, full: seq<ScenarioId>, upgrade: seq<ScenarioId>,
                   rules: Rules, c: Cycle, sid: ScenarioId)
    returns (ids: seq<ScenarioId>)
    requires Proves(a, full, rules) && Proves(b, full, rules) && |upgrades| == 1 && Proves(upgrades[0], upgrade, rules)
    requires ((c == a || c == b) && sid in full) || (c in upgrades && sid in upgrade)
    ensures Proves(c, ids, rules) && sid in ids
  {
    ids := if (c == a || c == b) && sid in full then full else upgrade;
  }

  lemma RestsOnProof(cycles: seq<Cycle>, negatives: seq<Negative>, rules: Rules, wording: Wording, c: Cycle,
                     sid: ScenarioId)
    returns (ids: seq<ScenarioId>)
    requires Proven(cycles, negatives, rules, wording) && RestsOn(cycles, c, sid)
    ensures Proves(c, ids, rules) && sid in ids
  {
    ids := OneOfThree(ByName(cycles, CycleA).value, ByName(cycles, CycleB).value, UpgradesOf(cycles), FULL_REQUIRED,
                      UPGRADE_REQUIRED, rules, c, sid);
  }

  /** In an accepted run, a scenario it rests on whose checks have different names was heard by the host as
      exactly those checks, each once, and not one FAIL line for it exists. */
  lemma AcceptedRunsWereHeardToPass(cycles: seq<Cycle>, negatives: seq<Negative>, rules: Rules, wording: Wording,
                                    c: Cycle, sid: ScenarioId)
    requires Proven(cycles, negatives, rules, wording) && RestsOn(cycles, c, sid)
    ensures sid in c.records && c.records[sid].asserts != [] && c.problems == [] && CleanAcceptance(c)
    ensures NamesDiffer(c.records[sid].asserts) ==>
              multiset(SpokenOf(c.serial, sid)) == multiset(Wanted(c.records[sid].asserts))
    ensures NamesDiffer(c.records[sid].asserts) ==>
              forall i :: 0 <= i < |c.serial| ==> !IsFailLine(c.serial[i], sid)
  {
    var ids := RestsOnProof(cycles, negatives, rules, wording, c, sid);
    HeardToPass(c, ids, rules, sid);
    SpokenFailuresAreLines(c.serial, sid);
  }

  /** No cycle with a fault injected, and none with a problem, can be one acceptance rests on. */
  lemma FaultsNeverCount(cycles: seq<Cycle>, negatives: seq<Negative>, rules: Rules, wording: Wording, c: Cycle)
    requires Proven(cycles, negatives, rules, wording)
    requires ByName(cycles, CycleA) == Some(c) || ByName(cycles, CycleB) == Some(c) || c in UpgradesOf(cycles)
    ensures forall i :: 0 <= i < |negatives| ==> ByName(cycles, negatives[i].name) != Some(c)
  {
    assert Unblemished(c);
    forall i | 0 <= i < |negatives| ensures ByName(cycles, negatives[i].name) != Some(c) {
      assert FaultSeen(cycles, negatives[i], rules, wording);
    }
  }

  // -- the mode of the two full cycles is not read ----------------------------------------------------

  /** A cycle that claims to be in some other mode than full. */
  function Relabel(c: Cycle, mode: string): Cycle {
    if c.plan.mode == Full then c.(plan := c.plan.(mode := OtherMode(mode))) else c
  }

  function RelabelAll(cycles: seq<Cycle>, mode: string): seq<Cycle> {
    seq(|cycles|, i requires 0 <= i < |cycles| => Relabel(cycles[i], mode))
  }

  lemma {:induction false} ByNameRelabelled(cycles: seq<Cycle>, mode: string, name: CycleName)
    ensures var found := ByName(cycles, name);
            ByName(RelabelAll(cycles, mode), name) == if found.Some? then Some(Relabel(found.value, mode)) else None
  {
    if cycles != [] {
      assert Front(RelabelAll(cycles, mode)) == RelabelAll(Front(cycles), mode);
      ByNameRelabelled(Front(cycles), mode, name);
    }
  }

  lemma {:induction false} UpgradesRelabelled(cycles: seq<Cycle>, mode: string)
    ensures UpgradesOf(RelabelAll(cycles, mode)) == UpgradesOf(cycles)
  {
    if cycles != [] {
      assert Front(RelabelAll(cycles, mode)) == RelabelAll(Front(cycles), mode);
      UpgradesRelabelled(Front(cycles), mode);
    }
  }

  lemma RunRelabelled(cycles: seq<Cycle>, mode: string)
    ensures OneRun(RelabelAll(cycles, mode)) == OneRun(cycles)
    ensures CountedAreUnblemished(cycles) ==> CountedAreUnblemished(RelabelAll(cycles, mode))
  {
    var other := RelabelAll(cycles, mode);
    assert InstallersOf(other) == InstallersOf(cycles);
    assert BasesOf(other) == BasesOf(cycles);
    assert HarnessesOf(other) == HarnessesOf(cycles);
  }

  lemma ProvesRelabelled(c: Cycle, mode: string, ids: seq<ScenarioId>, rules: Rules)
    ensures Proves(Relabel(c, mode), ids, rules) <==> Proves(c, ids, rules)
  {
  }

  lemma SameVerdicts(a: Cycle, c: Cycle, sid: ScenarioId, rules: Rules)
    requires c.records == a.records && c.serial == a.serial && c.installer == a.installer && sid in a.records
    ensures ScenarioVerdict(c, sid, rules) == ScenarioVerdict(a, sid, rules)
  {
  }

  lemma SameResultsKept(a: Cycle, b: Cycle, c: Cycle, d: Cycle, rules: Rules)
    requires SameResults(a, b, rules)
    requires c.records == a.records && c.serial == a.serial && c.installer == a.installer
    requires d.records == b.records && d.serial == b.serial && d.installer == b.installer
    ensures SameResults(c, d, rules)
  {
    forall sid | sid in c.records
      ensures ScenarioVerdict(c, sid, rules).result == ScenarioVerdict(d, sid, rules).result
    {
      SameVerdicts(a, c, sid, rules);
      SameVerdicts(b, d, sid, rules);
    }
  }

  lemma RepeatsKept(a: Cycle, b: Cycle, c: Cycle, d: Cycle, rules: Rules)
    requires Repeats(a, b, rules)
    requires c == a.(plan := c.plan) && d == b.(plan := d.plan)
    ensures Repeats(c, d, rules)
  {
    SameResultsKept(a, b, c, d, rules);
  }

  lemma RepeatsRelabelled(a: Cycle, b: Cycle, c: Cycle, d: Cycle, rules: Rules)
    requires c == a.(plan := c.plan) && d == b.(plan := d.plan)
    ensures Repeats(c, d, rules) <==> Repeats(a, b, rules)
  {
    if Repeats(a, b, rules) {
      RepeatsKept(a, b, c, d, rules);
    }
    if Repeats(c, d, rules) {
      RepeatsKept(c, d, a, b, rules);
    }
  }

  lemma SeenFailingKept(c: Cycle, mode: string, sid: ScenarioId, fragments: seq<string>, rules: Rules, wording: Wording)
    ensures SeenFailing(Relabel(c, mode), sid, fragments, rules, wording)
        <==> SeenFailing(c, sid, fragments, rules, wording)
  {
    if sid in c.records {
      SameVerdicts(c, Relabel(c, mode), sid, rules);
    }
  }

  lemma FaultRelabelled(cycles: seq<Cycle>, mode: string, n: Negative, rules: Rules, wording: Wording)
    ensures FaultSeen(RelabelAll(cycles, mode), n, rules, wording) <==> FaultSeen(cycles, n, rules, wording)
  {
    ByNameRelabelled(cycles, mode, n.name);
    var found := ByName(cycles, n.name);
    if found.Some? {
      forall i | 0 <= i < |n.mustFail|
        ensures SeenFailing(Relabel(found.value, mode), n.mustFail[i].0, n.mustFail[i].1, rules, wording)
            <==> SeenFailing(found.value, n.mustFail[i].0, n.mustFail[i].1, rules, wording)
      {
        SeenFailingKept(found.value, mode, n.mustFail[i].0, n.mustFail[i].1, rules, wording);
      }
    }
  }

  lemma FaultsRelabelled(cycles: seq<Cycle>, mode: string, negatives: seq<Negative>, rules: Rules, wording: Wording)
    ensures AllFaultsSeen(RelabelAll(cycles, mode), negatives, rules, wording)
        <==> AllFaultsSeen(cycles, negatives, rules, wording)
  {
    forall i | 0 <= i < |negatives|
      ensures FaultSeen(RelabelAll(cycles, mode), negatives[i], rules, wording)
          <==> FaultSeen(cycles, negatives[i], rules, wording)
    {
      FaultRelabelled(cycles, mode, negatives[i], rules, wording);
    }
  }

  /** The documentation asks for two cycles in full mode. The judge finds them by name only: an accepted run is
      still accepted when every cycle that said full says something else. The word is read in one place: a run
      so relabelled and accepted was acceptable before exactly when nothing was held against any cycle that
      said full, an earlier one of the same name included. */
  lemma ModeOfFullCyclesIsNotRead(cycles: seq<Cycle>, negatives: seq<Negative>, rules: Rules, wording: Wording,
                                  mode: string)
    ensures Proven(cycles, negatives, rules, wording)
        <==> Proven(RelabelAll(cycles, mode), negatives, rules, wording) && CountedAreUnblemished(cycles)
    ensures forall i :: 0 <= i < |cycles| ==> RelabelAll(cycles, mode)[i].plan.mode != Full
  {
    var a, b, upgrades := ByName(cycles, CycleA), ByName(cycles, CycleB), UpgradesOf(cycles);
    ByNameRelabelled(cycles, mode, CycleA);
    ByNameRelabelled(cycles, mode, CycleB);
    UpgradesRelabelled(cycles, mode);
    RunRelabelled(cycles, mode);
    FaultsRelabelled(cycles, mode, negatives, rules, wording);
    if a.Some? && b.Some? {
      ProvesRelabelled(a.value, mode, FULL_REQUIRED, rules);
      ProvesRelabelled(b.value, mode, FULL_REQUIRED, rules);
      RepeatsRelabelled(a.value, b.value, Relabel(a.value, mode), Relabel(b.value, mode), rules);
    }
  }
}
