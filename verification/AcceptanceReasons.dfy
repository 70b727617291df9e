/** Why a run is not accepted, and what each part of the verdict on a run says about it. */
module AcceptanceReasons {
  import opened Common
  import opened ScenarioJudge
  import opened ScenarioProblems
  import opened Acceptance

  // -- which cycles are looked at ----------------------------------------------------------------------

  /** Of several cycles of one name, the last is the one that counts. */
  lemma {:induction false} TheLastOfANameCounts(cycles: seq<Cycle>, i: nat)
    requires i < |cycles| && forall j :: i < j < |cycles| ==> cycles[j].name != cycles[i].name
    ensures ByName(cycles, cycles[i].name) == Some(cycles[i])
    decreases |cycles|
  {
    if i < |cycles| - 1 {
      assert Last(cycles).name != cycles[i].name;
      TheLastOfANameCounts(Front(cycles), i);
    }
  }

  /** What is judged as the subject: the last A, the last B and the first upgrade cycle, as far as there are such. */
  lemma TheSubjectIs(cycles: seq<Cycle>, c: Cycle)
    ensures c in CountedOf(cycles) <==>
              || ByName(cycles, CycleA) == Some(c) || ByName(cycles, CycleB) == Some(c)
              || (UpgradesOf(cycles) != [] && UpgradesOf(cycles)[0] == c)
    ensures |CountedOf(cycles)| <= 3
  {
  }

  /** The upgrade cycles are those in upgrade mode with nothing injected, each as often as it is there. */
  lemma {:induction false} UpgradesAreFiltered(cycles: seq<Cycle>)
    ensures UpgradesOf(cycles) == Filter((c: Cycle) => c.plan.mode == Upgrade && c.plan.inject == [], cycles)
  {
    if cycles != [] {
      UpgradesAreFiltered(Front(cycles));
      FilterLast((c: Cycle) => c.plan.mode == Upgrade && c.plan.inject == [], cycles);
    }
  }

  /** A full cycle needs scenarios 1 to 13 but the eleventh, and that nothing was contaminated. */
  lemma FullCycleNeeds(sid: ScenarioId)
    ensures sid in FULL_REQUIRED <==> sid.Contamination? || (sid.Numbered? && 1 <= sid.number <= 13 && sid.number != 11)
  {
    if sid.Numbered? && 1 <= sid.number <= 10 {
      assert FULL_REQUIRED[sid.number - 1] == sid;
    }
    assert FULL_REQUIRED[10] == Numbered(12) && FULL_REQUIRED[11] == Numbered(13) && FULL_REQUIRED[12] == Contamination;
  }

  /** An upgrade cycle needs 1, 2 and 11, and the same. */
  lemma UpgradeCycleNeeds(sid: ScenarioId)
    ensures sid in UPGRADE_REQUIRED <==> sid.Contamination? || (sid.Numbered? && sid.number in {1, 2, 11})
  {
    assert UPGRADE_REQUIRED[0] == Numbered(1) && UPGRADE_REQUIRED[1] == Numbered(2);
    assert UPGRADE_REQUIRED[2] == Numbered(11) && UPGRADE_REQUIRED[3] == Contamination;
  }

  ghost predicate LowerHex(s: string) {
    |s| == 64 && forall c :: c in s ==> c in {'0', '1', '2', '3', '4', '5', '6', '7', '8', '9',
                                              'a', 'b', 'c', 'd', 'e', 'f'}
  }

  /** A digest is sixty-four lower-case hex digits; the pattern lets one line feed follow. */
  lemma Sha256Exactly(s: string)
    ensures IsSha256(Some(s)) <==> LowerHex(s) || (|s| == 65 && LowerHex(s[..64]) && s[64] == '\n')
    ensures !IsSha256(None)
  {
    if IsSha256(Some(s)) {
      assert forall c :: c in s[..64] ==> HexDigit(c);
      if |s| == 64 {
        assert s[..64] == s;
      }
    }
    assert |s| >= 64 ==> forall i :: 0 <= i < 64 ==> s[i] == s[..64][i];
    if LowerHex(s) {
      assert forall i :: 0 <= i < 64 ==> s[i] in s;
    }
    if |s| == 65 && LowerHex(s[..64]) {
      assert forall i :: 0 <= i < 64 ==> s[..64][i] in s[..64];
    }
  }

  /** An installer is unidentified for one of five reasons. */
  lemma UnidentifiedExactly(i: Installer)
    ensures !WellIdentified(i) <==>
              || !IsSha256(i.sha256) || !IsSha256(i.exeSha256)
              || i.file in {None, Some("")} || i.version in {None, Some("")} || i.buildCommit in {None, Some("")}
  {
  }

  // -- a cell of the matrix ----------------------------------------------------------------------------

  /** What was wrong with this scenario of this cycle, if anything: an objection of the judge's. */
  ghost predicate HeldAgainst(c: Cycle, sid: ScenarioId, rules: Rules, p: Problem)
    requires sid in c.records
  {
    var rec, spoken, summary := c.records[sid], SpokenOf(c.serial, sid), SummaryOf(c.serial, sid);
    || p in RecordProblems(rec) || p in ChannelProblems(rec, spoken, summary)
    || p in RuleProblems(sid, rec, Artefact(c.installer.file, c.installer.sha256), rules(sid))
  }

  lemma EmptyExactly<T>(s: seq<T>)
    ensures s == [] <==> forall x :: x !in s
  {
    assert s != [] ==> s[0] in s;
  }

  /** A cell shows PASS when the checks come to it, nothing at all is held against the scenario, and nothing against
      the cycle; BLOCKED when the checks come to that, whatever is held against either; and FAIL otherwise. */
  lemma CellExactly(c: Cycle, sid: ScenarioId, rules: Rules)
    ensures CellOf(None, sid, rules) == NotRun
    ensures CellOf(Some(c), sid, rules) == NotRun <==> sid !in c.records
    ensures sid in c.records ==>
              var rec, cell := c.records[sid], CellOf(Some(c), sid, rules);
              && (cell == Shown(Pass) <==>
                    && ComesTo(rec, Pass) && (forall p :: !HeldAgainst(c, sid, rules, p))
                    && c.problems == [] && forall stain :: !Stained(c, stain))
              && (cell == Shown(Blocked) <==> ComesTo(rec, Blocked))
              && (cell == Shown(Pass) || cell == Shown(Blocked) || cell == Shown(Fail))
  {
    if sid in c.records {
      var rec, spoken, summary := c.records[sid], SpokenOf(c.serial, sid), SummaryOf(c.serial, sid);
      var expected, required := Artefact(c.installer.file, c.installer.sha256), rules(sid);
      JudgedExactly(sid, rec, spoken, summary, expected, required);
      var problems := Judge(sid, rec, spoken, summary, expected, required).problems;
      assert forall p :: p in problems <==> HeldAgainst(c, sid, rules, p);
      EmptyExactly(problems);
      CleanHasNoStain(c);
    }
  }

  lemma CleanHasNoStain(c: Cycle)
    ensures CleanAcceptance(c) <==> forall stain :: !Stained(c, stain)
  {
    if !CleanAcceptance(c) {
      assert || Stained(c, DevBuildOnSerial) || Stained(c, WeakJourneys) || Stained(c, InjectedFault)
             || Stained(c, TamperedInstaller) || Stained(c, DirtyHarness) || Stained(c, DevBuild);
    }
  }

  // -- a fault that was not seen -----------------------------------------------------------------------

  /** The scenario did not fail, or failed without this being complained of. */
  ghost predicate NotSeenFailing(c: Cycle, sid: ScenarioId, fragment: string, rules: Rules, wording: Wording) {
    || sid !in c.records
    || ScenarioVerdict(c, sid, rules).result != Fail
    || forall p :: p in ScenarioVerdict(c, sid, rules).problems ==> !wording(p, fragment)
  }

  lemma NotMentioned(problems: seq<Problem>, fragment: string, wording: Wording)
    ensures Mentioned(problems, fragment, wording) <==> exists p :: p in problems && wording(p, fragment)
  {
  }

  /** Why a cycle is no proof that its fault is seen. */
  ghost predicate Unconvincing(c: Cycle, n: Negative, rules: Rules, wording: Wording) {
    || (c.plan.inject == [] && !c.plan.tampered && !c.plan.omitted)
    || (exists sid, fragments, fragment :: (sid, fragments) in n.mustFail && fragment in fragments
                                           && NotSeenFailing(c, sid, fragment, rules, wording))
    || (exists sid, fragments :: (sid, fragments) in n.mustFail
                                 && (sid !in c.records || ScenarioVerdict(c, sid, rules).result != Fail))
    || (exists sid :: sid in n.mustNotRun && sid in c.records)
    || !c.finished
    || c.networkProblems != []
  }

  lemma SeenFailingExactly(c: Cycle, sid: ScenarioId, fragments: seq<string>, rules: Rules, wording: Wording)
    ensures SeenFailing(c, sid, fragments, rules, wording) <==>
              && sid in c.records && ScenarioVerdict(c, sid, rules).result == Fail
              && forall fragment :: fragment in fragments ==> !NotSeenFailing(c, sid, fragment, rules, wording)
  {
    if sid in c.records && ScenarioVerdict(c, sid, rules).result == Fail {
      var problems := ScenarioVerdict(c, sid, rules).problems;
      forall fragment
        ensures Mentioned(problems, fragment, wording) <==> !NotSeenFailing(c, sid, fragment, rules, wording)
      {
        NotMentioned(problems, fragment, wording);
      }
      AllMentioned(problems, fragments, wording);
    }
  }

  lemma AllMentioned(problems: seq<Problem>, fragments: seq<string>, wording: Wording)
    ensures (forall i :: 0 <= i < |fragments| ==> Mentioned(problems, fragments[i], wording))
            <==> forall fragment :: fragment in fragments ==> Mentioned(problems, fragment, wording)
  {
    if forall i :: 0 <= i < |fragments| ==> Mentioned(problems, fragments[i], wording) {
      forall fragment | fragment in fragments ensures Mentioned(problems, fragment, wording) {
        var i :| 0 <= i < |fragments| && fragments[i] == fragment;
      }
    }
  }

  lemma AllSeenFailing(c: Cycle, mustFail: seq<(ScenarioId, seq<string>)>, rules: Rules, wording: Wording)
    ensures (forall i :: 0 <= i < |mustFail| ==> SeenFailing(c, mustFail[i].0, mustFail[i].1, rules, wording))
            <==> forall sid, fragments ::
                   (sid, fragments) in mustFail ==> SeenFailing(c, sid, fragments, rules, wording)
  {
    if forall i :: 0 <= i < |mustFail| ==> SeenFailing(c, mustFail[i].0, mustFail[i].1, rules, wording) {
      forall sid, fragments | (sid, fragments) in mustFail ensures SeenFailing(c, sid, fragments, rules, wording) {
        var i :| 0 <= i < |mustFail| && mustFail[i] == (sid, fragments);
      }
    }
    if forall sid, fragments :: (sid, fragments) in mustFail ==> SeenFailing(c, sid, fragments, rules, wording) {
      forall i | 0 <= i < |mustFail| ensures SeenFailing(c, mustFail[i].0, mustFail[i].1, rules, wording) {
        assert (mustFail[i].0, mustFail[i].1) in mustFail;
      }
    }
  }

  /** A fault goes unseen exactly when its cycle is missing or unconvincing. */
  lemma FaultMissedExactly(cycles: seq<Cycle>, n: Negative, rules: Rules, wording: Wording)
    ensures !FaultSeen(cycles, n, rules, wording) <==>
              ByName(cycles, n.name).None? || Unconvincing(ByName(cycles, n.name).value, n, rules, wording)
  {
    if ByName(cycles, n.name).Some? {
      var c := ByName(cycles, n.name).value;
      AllSeenFailing(c, n.mustFail, rules, wording);
      forall sid, fragments
        ensures SeenFailing(c, sid, fragments, rules, wording) <==>
                  && sid in c.records && ScenarioVerdict(c, sid, rules).result == Fail
                  && forall fragment :: fragment in fragments ==> !NotSeenFailing(c, sid, fragment, rules, wording)
      {
        SeenFailingExactly(c, sid, fragments, rules, wording);
      }
    }
  }

  // -- a run that is not accepted ------------------------------------------------------------------------

  /** Some scenario this cycle needs does not show PASS. */
  ghost predicate Short(c: Option<Cycle>, ids: seq<ScenarioId>, rules: Rules) {
    exists sid :: sid in ids && CellOf(c, sid, rules) != Shown(Pass)
  }

  lemma ShortExactly(c: Option<Cycle>, ids: seq<ScenarioId>, rules: Rules)
    requires ids != []
    ensures Short(c, ids, rules) <==> c.None? || !Proves(c.value, ids, rules)
  {
    RowOfPasses(c, ids, rules);
    if !AllPass(c, ids, rules) {
      var i :| 0 <= i < |ids| && CellOf(c, ids[i], rules) != Shown(Pass);
      assert ids[i] in ids;
    }
  }

  /** A run fails for one of these reasons and no other: a complaint, a cell that does not pass, B differing from A,
      no fault tried, or a fault unseen. */
  lemma NotAcceptedExactly(cycles: seq<Cycle>, negatives: seq<Negative>, rules: Rules, wording: Wording)
    ensures !Proven(cycles, negatives, rules, wording) <==>
              var a, b := ByName(cycles, CycleA), ByName(cycles, CycleB);
              || (exists x :: Objected(cycles, x))
              || Short(a, FULL_REQUIRED, rules) || Short(b, FULL_REQUIRED, rules)
              || Short(UpgradeOf(cycles), UPGRADE_REQUIRED, rules)
              || (a.Some? && b.Some? && exists d :: Differs(a.value, b.value, rules, d))
              || negatives == []
              || (exists n :: n in negatives && !FaultSeen(cycles, n, rules, wording))
  {
    var a, b := ByName(cycles, CycleA), ByName(cycles, CycleB);
    ProvenParts(cycles, negatives, rules, wording);
    ShortExactly(a, FULL_REQUIRED, rules);
    ShortExactly(b, FULL_REQUIRED, rules);
    ShortExactly(UpgradeOf(cycles), UPGRADE_REQUIRED, rules);
    NothingObjected(cycles);
    if a.Some? && b.Some? {
      DiffersExactly(a.value, b.value, rules);
    }
    UnseenIsAFault(cycles, negatives, rules, wording);
  }

  ghost predicate Shows(c: Option<Cycle>, ids: seq<ScenarioId>, rules: Rules) {
    c.Some? && Proves(c.value, ids, rules)
  }

  lemma ProvenParts(cycles: seq<Cycle>, negatives: seq<Negative>, rules: Rules, wording: Wording)
    ensures Proven(cycles, negatives, rules, wording) <==>
              var a, b := ByName(cycles, CycleA), ByName(cycles, CycleB);
              && NothingToComplainAbout(cycles)
              && Shows(a, FULL_REQUIRED, rules) && Shows(b, FULL_REQUIRED, rules)
              && Shows(UpgradeOf(cycles), UPGRADE_REQUIRED, rules)
              && Repeats(a.value, b.value, rules)
              && negatives != [] && AllFaultsSeen(cycles, negatives, rules, wording)
  {
    if ByName(cycles, CycleA).Some? && OneRun(cycles) {
      SubjectOfA(cycles);
    }
  }

  lemma UnseenIsAFault(cycles: seq<Cycle>, negatives: seq<Negative>, rules: Rules, wording: Wording)
    ensures AllFaultsSeen(cycles, negatives, rules, wording) <==>
              forall n :: n in negatives ==> FaultSeen(cycles, n, rules, wording)
  {
    if forall n :: n in negatives ==> FaultSeen(cycles, n, rules, wording) {
      forall i | 0 <= i < |negatives| ensures FaultSeen(cycles, negatives[i], rules, wording) {
        assert negatives[i] in negatives;
      }
    }
  }

  lemma DiffersExactly(a: Cycle, b: Cycle, rules: Rules)
    ensures Repeats(a, b, rules) <==> forall d :: !Differs(a, b, rules, d)
  {
    if !Repeats(a, b, rules) {
      assert Differs(a, b, rules, BaseDiffers) || Differs(a, b, rules, FingerprintDiffers)
             || Differs(a, b, rules, SameDirectory);
    }
  }

  lemma SubjectOfA(cycles: seq<Cycle>)
    requires ByName(cycles, CycleA).Some? && OneRun(cycles)
    ensures OneSubject(CountedOf(cycles)) <==> WellIdentified(ByName(cycles, CycleA).value.installer)
  {
    CountedAreOne(cycles);
    assert CountedOf(cycles)[0] == ByName(cycles, CycleA).value;
  }

  lemma NothingObjected(cycles: seq<Cycle>)
    ensures NothingToComplainAbout(cycles) <==> forall x :: !Objected(cycles, x)
  {
    RunNotObjected(cycles);
    SubjectNotObjected(CountedOf(cycles));
    CountedNotObjected(cycles);
    assert forall x :: Objected(cycles, x) <==>
             RunObjected(cycles, x) || SubjectObjected(CountedOf(cycles), x) || CountedObjected(cycles, x);
  }

  lemma RunNotObjected(cycles: seq<Cycle>)
    ensures |UpgradesOf(cycles)| <= 1 && OneRun(cycles) <==> forall x :: !RunObjected(cycles, x)
  {
    OneRunExactly(cycles);
    assert RunObjected(cycles, ManyUpgrades) <==> |UpgradesOf(cycles)| > 1;
    assert RunObjected(cycles, NotOneRun) <==> !OneRun(cycles);
  }

  lemma SubjectNotObjected(counted: seq<Cycle>)
    ensures OneSubject(counted) <==> forall x :: !SubjectObjected(counted, x)
  {
    assert SubjectObjected(counted, NotOneInstaller) <==> !AllAlike(InstallersOf(counted));
    assert SubjectObjected(counted, NotIdentified) <==>
             AllAlike(InstallersOf(counted)) && counted != [] && !WellIdentified(counted[0].installer);
  }

  lemma CycleNotObjected(c: Cycle)
    ensures Unblemished(c) <==> forall x :: !CycleObjected(c, x)
  {
    CleanHasNoStain(c);
    if c.problems != [] {
      assert CycleObjected(c, CycleProblem(c.problems[0]));
    } else if stain :| Stained(c, stain) {
      assert CycleObjected(c, CycleStain(stain));
    }
  }

  lemma CountedNotObjected(cycles: seq<Cycle>)
    ensures CountedAreUnblemished(cycles) <==> forall x :: !CountedObjected(cycles, x)
  {
    forall c ensures Unblemished(c) <==> forall x :: !CycleObjected(c, x) {
      CycleNotObjected(c);
    }
    assert CountedAreUnblemished(cycles) <==>
             forall c :: c in cycles && Counts(c) ==> Unblemished(c);
    if c :| c in cycles && Counts(c) && !Unblemished(c) {
      var x :| CycleObjected(c, x);
      assert CountedObjected(cycles, x);
    }
  }
}
