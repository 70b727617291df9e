/** A run that is accepted, whatever fragments the rules ask for: what the judge demands can be met. */
module AcceptedRun {
  import opened Common
  import opened ScenarioJudge
  import opened Acceptance
  import opened AcceptanceLaws

  // -- one scenario ------------------------------------------------------------------------------------------

  function Joined(fragments: seq<string>): string {
    if fragments == [] then [] else fragments[0] + Joined(fragments[1..])
  }

  lemma FoundFurtherOn(front: string, text: string, fragment: string)
    requires Contains(text, fragment)
    ensures Contains(front + text, fragment)
  {
    var i :| 0 <= i <= |text| && fragment <= text[i..];
    assert (front + text)[|front| + i..] == text[i..];
  }

  lemma {:induction false} JoinedContainsEach(fragments: seq<string>, i: nat)
    requires i < |fragments|
    ensures Contains(Joined(fragments), fragments[i])
    decreases |fragments|
  {
    if i == 0 {
      assert Joined(fragments)[0..] == Joined(fragments);
    } else {
      JoinedContainsEach(fragments[1..], i - 1);
      FoundFurtherOn(fragments[0], Joined(fragments[1..]), fragments[i]);
    }
  }

  /** One check whose name has every fragment in it. */
  function CheckOf(sid: ScenarioId, rules: Rules): Assertion {
    Assertion(Some(Joined(rules(sid))), true)
  }

  function LinesOf(sid: ScenarioId, rules: Rules): seq<SerialLine> {
    [AssertLine(sid, true, Joined(rules(sid))), ResultLine(sid, Pass, 1, 0)]
  }

  function RecordOf(sid: ScenarioId, rules: Rules, installer: Installer): Record {
    Record(Some(Pass), false, [CheckOf(sid, rules)], Artefact(installer.file, installer.sha256), [], [])
  }

  lemma RecordIsEvidence(sid: ScenarioId, rules: Rules, installer: Installer)
    ensures Evidence(sid, RecordOf(sid, rules, installer), [Spoken(true, Joined(rules(sid)))],
                     Some(Summary(Pass, 1, 0)), Artefact(installer.file, installer.sha256), rules(sid))
  {
    var rec := RecordOf(sid, rules, installer);
    forall i | 0 <= i < |rules(sid)| ensures Covered(rules(sid)[i], rec.asserts) {
      JoinedContainsEach(rules(sid), i);
      assert NameText(rec.asserts[0]) == Joined(rules(sid));
    }
  }

  // -- the serial line of a cycle ----------------------------------------------------------------------------

  function SerialOf(ids: seq<ScenarioId>, rules: Rules): seq<SerialLine> {
    if ids == [] then [] else SerialOf(Front(ids), rules) + LinesOf(Last(ids), rules)
  }

  lemma TwoLines(lines: seq<SerialLine>, sid: ScenarioId, rules: Rules, asked: ScenarioId)
    ensures SpokenOf(lines + LinesOf(sid, rules), asked)
         == SpokenOf(lines, asked) + if asked == sid then [Spoken(true, Joined(rules(sid)))] else []
    ensures SummaryOf(lines + LinesOf(sid, rules), asked)
         == if asked == sid then Some(Summary(Pass, 1, 0)) else SummaryOf(lines, asked)
  {
    var first, second := LinesOf(sid, rules)[0], LinesOf(sid, rules)[1];
    assert Front(lines + LinesOf(sid, rules)) == lines + [first] && Front(lines + [first]) == lines;
  }

  lemma {:induction false} SaidOnce(ids: seq<ScenarioId>, rules: Rules, sid: ScenarioId)
    requires Distinct(ids)
    ensures SpokenOf(SerialOf(ids, rules), sid) == if sid in ids then [Spoken(true, Joined(rules(sid)))] else []
    ensures sid in ids ==> SummaryOf(SerialOf(ids, rules), sid) == Some(Summary(Pass, 1, 0))
  {
    if ids != [] {
      SaidOnce(Front(ids), rules, sid);
      TwoLines(SerialOf(Front(ids), rules), Last(ids), rules, sid);
      assert ids == Front(ids) + [Last(ids)] && Last(ids) !in Front(ids);
    }
  }

  // -- the run -----------------------------------------------------------------------------------------------

  function Zeros(n: nat): (r: string)
    ensures |r| == n && forall i :: 0 <= i < n ==> r[i] == '0'
  {
    if n == 0 then [] else Zeros(n - 1) + ['0']
  }

  const SHA: string := Zeros(64)

  const Published: Installer :=
    Installer(Some(['i']), Some(SHA), Some(['v']), Some(['c']), Some(SHA), None, None, None)

  function PlanOf(mode: Mode, inject: seq<string>): Plan {
    Plan(mode, inject, false, false, false, false, Some(MIN_JOURNEYS_REPEAT), Some(MIN_JOURNEYS_PASS), None)
  }

  function RecordsOf(ids: seq<ScenarioId>, rules: Rules): map<ScenarioId, Record> {
    map sid | sid in ids :: RecordOf(sid, rules, Published)
  }

  function CycleOf(name: CycleName, path: string, plan: Plan, ids: seq<ScenarioId>, rules: Rules): Cycle {
    Cycle(name, path, plan, Published, false, RecordsOf(ids, rules), SerialOf(ids, rules), [], [], ['b'],
          Machine(None, None), None, false, true)
  }

  lemma CycleProves(name: CycleName, path: string, mode: Mode, ids: seq<ScenarioId>, rules: Rules)
    requires Distinct(ids)
    ensures Proves(CycleOf(name, path, PlanOf(mode, []), ids, rules), ids, rules)
  {
    forall i | 0 <= i < |ids|
      ensures var c := CycleOf(name, path, PlanOf(mode, []), ids, rules);
              && ids[i] in c.records
              && Evidence(ids[i], c.records[ids[i]], SpokenOf(c.serial, ids[i]), SummaryOf(c.serial, ids[i]),
                          Artefact(c.installer.file, c.installer.sha256), rules(ids[i]))
    {
      SaidOnce(ids, rules, ids[i]);
      RecordIsEvidence(ids[i], rules, Published);
    }
  }

  function FullCycle(name: CycleName, path: string, rules: Rules): Cycle {
    CycleOf(name, path, PlanOf(Full, []), FULL_REQUIRED, rules)
  }

  function UpgradeCycle(rules: Rules): Cycle {
    CycleOf(Named(['u']), ['u'], PlanOf(Upgrade, []), UPGRADE_REQUIRED, rules)
  }

  function FaultCycle(rules: Rules): Cycle {
    CycleOf(Named(['n']), ['n'], PlanOf(Full, [['x']]), [], rules)
  }

  /** Two full cycles, an upgrade and one cycle with a fault. */
  function SampleRun(rules: Rules): seq<Cycle> {
    [FullCycle(CycleA, ['a'], rules), FullCycle(CycleB, ['b'], rules), UpgradeCycle(rules), FaultCycle(rules)]
  }

  const SampleNegatives: seq<Negative> := [Negative(Named(['n']), [], FULL_REQUIRED)]

  lemma FoundByName(cycles: seq<Cycle>, name: CycleName, k: nat)
    requires k < |cycles| && cycles[k].name == name
    requires forall i :: 0 <= i < |cycles| && i != k ==> cycles[i].name != name
    ensures ByName(cycles, name) == Some(cycles[k])
  {
  }

  lemma NoUpgrades(cycles: seq<Cycle>)
    requires forall c :: c in cycles ==> !IsUpgrade(c)
    ensures UpgradesOf(cycles) == []
  {
    assert forall c :: c !in UpgradesOf(cycles);
  }

  lemma OneUpgrade(a: Cycle, b: Cycle, u: Cycle, n: Cycle)
    requires !IsUpgrade(a) && !IsUpgrade(b) && IsUpgrade(u) && !IsUpgrade(n)
    ensures UpgradesOf([a, b, u, n]) == [u]
  {
    NoUpgrades([a, b]);
    assert Front([a, b, u, n]) == [a, b, u] && Front([a, b, u]) == [a, b];
    assert UpgradesOf([a, b, u]) == [] + [u];
  }

  lemma SameVerdictsAlike(a: Cycle, b: Cycle, rules: Rules)
    requires b == a.(name := b.name, path := b.path)
    ensures SameResults(a, b, rules)
  {
    forall sid | sid in a.records ensures ScenarioVerdict(a, sid, rules) == ScenarioVerdict(b, sid, rules) {
      SameVerdicts(a, b, sid, rules);
    }
  }

  lemma SampleIsOneRun(rules: Rules)
    ensures OneRun(SampleRun(rules)) && WellIdentified(Published)
  {
    OneSubjectThroughout(SampleRun(rules));
  }

  lemma OneSubjectThroughout(cycles: seq<Cycle>)
    requires forall i :: 0 <= i < |cycles| ==>
               cycles[i].installer == Published && cycles[i].baseSha == ['b'] && cycles[i].plan.harnessCommit == None
    ensures OneRun(cycles)
  {
    assert forall i :: 0 <= i < |cycles| ==> InstallersOf(cycles)[i] == Published;
    assert forall i :: 0 <= i < |cycles| ==> BasesOf(cycles)[i] == ['b'];
    assert forall i :: 0 <= i < |cycles| ==> HarnessesOf(cycles)[i] == None;
  }

  lemma SampleFaultIsSeen(c: Cycle, cycles: seq<Cycle>, rules: Rules, wording: Wording)
    requires ByName(cycles, Named(['n'])) == Some(c) && c.plan.inject != [] && c.records == map[]
    requires c.finished && c.networkProblems == []
    ensures AllFaultsSeen(cycles, SampleNegatives, rules, wording)
  {
  }

  lemma NothingHeldAgainst(name: CycleName, path: string, mode: Mode, ids: seq<ScenarioId>, rules: Rules)
    ensures Unblemished(CycleOf(name, path, PlanOf(mode, []), ids, rules))
  {
  }

  lemma SampleIsUnblemished(rules: Rules)
    ensures CountedAreUnblemished(SampleRun(rules))
  {
    NothingHeldAgainst(CycleA, ['a'], Full, FULL_REQUIRED, rules);
    NothingHeldAgainst(CycleB, ['b'], Full, FULL_REQUIRED, rules);
    NothingHeldAgainst(Named(['u']), ['u'], Upgrade, UPGRADE_REQUIRED, rules);
  }

  lemma SampleIsFound(rules: Rules)
    ensures var cycles := SampleRun(rules);
            && ByName(cycles, CycleA) == Some(FullCycle(CycleA, ['a'], rules))
            && ByName(cycles, CycleB) == Some(FullCycle(CycleB, ['b'], rules))
            && UpgradesOf(cycles) == [UpgradeCycle(rules)] && ByName(cycles, Named(['n'])) == Some(FaultCycle(rules))
  {
    FourFound(FullCycle(CycleA, ['a'], rules), FullCycle(CycleB, ['b'], rules), UpgradeCycle(rules), FaultCycle(rules));
  }

  lemma FourFound(a: Cycle, b: Cycle, u: Cycle, n: Cycle)
    requires a.name == CycleA && b.name == CycleB && u.name == Named(['u']) && n.name == Named(['n'])
    requires !IsUpgrade(a) && !IsUpgrade(b) && IsUpgrade(u) && !IsUpgrade(n)
    ensures ByName([a, b, u, n], CycleA) == Some(a) && ByName([a, b, u, n], CycleB) == Some(b)
    ensures ByName([a, b, u, n], Named(['n'])) == Some(n) && UpgradesOf([a, b, u, n]) == [u]
  {
    FoundByName([a, b, u, n], CycleA, 0);
    FoundByName([a, b, u, n], CycleB, 1);
    FoundByName([a, b, u, n], Named(['n']), 3);
    OneUpgrade(a, b, u, n);
  }

  lemma FullProves(name: CycleName, path: string, rules: Rules)
    ensures Proves(FullCycle(name, path, rules), FULL_REQUIRED, rules)
  {
    CycleProves(name, path, Full, FULL_REQUIRED, rules);
  }

  lemma UpgradeProves(rules: Rules)
    ensures Proves(UpgradeCycle(rules), UPGRADE_REQUIRED, rules)
  {
    CycleProves(Named(['u']), ['u'], Upgrade, UPGRADE_REQUIRED, rules);
  }

  lemma SampleRepeats(rules: Rules)
    ensures Repeats(FullCycle(CycleA, ['a'], rules), FullCycle(CycleB, ['b'], rules), rules)
  {
    SameVerdictsAlike(FullCycle(CycleA, ['a'], rules), FullCycle(CycleB, ['b'], rules), rules);
  }

  /** The sample run is accepted under every set of rules, and it is accepted still when its full cycles say they
      are in some other mode. */
  lemma SampleIsAccepted(rules: Rules, wording: Wording, mode: string)
    ensures Proven(SampleRun(rules), SampleNegatives, rules, wording)
    ensures Proven(RelabelAll(SampleRun(rules), mode), SampleNegatives, rules, wording)
  {
    var cycles := SampleRun(rules);
    SampleIsFound(rules);
    FullProves(CycleA, ['a'], rules);
    FullProves(CycleB, ['b'], rules);
    UpgradeProves(rules);
    SampleIsOneRun(rules);
    SampleIsUnblemished(rules);
    SampleRepeats(rules);
    SampleFaultIsSeen(FaultCycle(rules), cycles, rules, wording);
    ModeOfFullCyclesIsNotRead(cycles, SampleNegatives, rules, wording, mode);
  }
}
