/** The acceptance verdict over a whole clean-machine run: two full cycles, an upgrade cycle and the
    cycles that carry a fault on purpose, judged together. */
module Acceptance {
  import opened Common
  import opened ScenarioJudge

  const MIN_JOURNEYS_REPEAT := 3
  const MIN_JOURNEYS_PASS := 100

  const FULL_REQUIRED: seq<ScenarioId> :=
    [Numbered(1), Numbered(2), Numbered(3), Numbered(4), Numbered(5), Numbered(6), Numbered(7), Numbered(8),
     Numbered(9), Numbered(10), Numbered(12), Numbered(13), Contamination]

  const UPGRADE_REQUIRED: seq<ScenarioId> := [Numbered(1), Numbered(2), Numbered(11), Contamination]

  datatype CycleName = CycleA | CycleB | Named(text: string)

  datatype Mode = Full | Upgrade | OtherMode(text: string)

  datatype Installer = Installer(file: Option<string>, sha256: Option<string>, version: Option<string>,
                                 buildCommit: Option<string>, exeSha256: Option<string>, tag: Option<string>,
                                 tagCommit: Option<string>, signature: Option<string>)

  /** `repeat` and `minPass` are absent when the plan holds something that is not a number. */
  datatype Plan = Plan(mode: Mode, inject: seq<string>, tampered: bool, omitted: bool, dirty: bool, devBuild: bool,
                       repeat: Option<int>, minPass: Option<int>, harnessCommit: Option<string>)

  datatype Machine = Machine(build: Option<string>, guid: Option<string>)

  /** One cycle directory, loaded but for the judging of its scenarios. */
  datatype Cycle = Cycle(name: CycleName, path: string, plan: Plan, installer: Installer, installerDevBuild: bool,
                         records: map<ScenarioId, Record>, serial: seq<SerialLine>, problems: seq<string>,
                         networkProblems: seq<string>, baseSha: string, machine: Machine,
                         installed: Option<seq<string>>, devBuildOnSerial: bool, finished: bool)

  /** The fragments each scenario's check names must cover. */
  type Rules = ScenarioId -> seq<string>

  /** Whether the text of a problem has a fragment in it. */
  type Wording = (Problem, string) -> bool

  /** A cycle that must be seen failing: where, with which complaints, and what it must not reach. */
  datatype Negative = Negative(name: CycleName, mustFail: seq<(ScenarioId, seq<string>)>, mustNotRun: seq<ScenarioId>)

  function ScenarioVerdict(c: Cycle, sid: ScenarioId, rules: Rules): Judged
    requires sid in c.records
  {
    Judge(sid, c.records[sid], SpokenOf(c.serial, sid), SummaryOf(c.serial, sid),
          Artefact(c.installer.file, c.installer.sha256), rules(sid))
  }

  // -- a cycle that may count -----------------------------------------------------------------------

  datatype Stain = DevBuildOnSerial | WeakJourneys | InjectedFault | TamperedInstaller | DirtyHarness | DevBuild

  function Journeys(p: Plan): (int, int) {
    if p.repeat.Some? && p.minPass.Some? then (p.repeat.value, p.minPass.value) else (0, 0)
  }

  /** A published build, a committed harness, nothing injected, journeys no weaker than the default. */
  predicate CleanAcceptance(c: Cycle) {
    && !c.devBuildOnSerial
    && c.plan.repeat.Some? && c.plan.minPass.Some?
    && c.plan.repeat.value >= MIN_JOURNEYS_REPEAT && c.plan.minPass.value >= MIN_JOURNEYS_PASS
    && c.plan.inject == [] && !c.plan.tampered && !c.plan.omitted && !c.plan.dirty
    && !c.plan.devBuild && !c.installerDevBuild
  }

  /** What each stain stands for. */
  predicate Stained(c: Cycle, stain: Stain) {
    match stain
    case DevBuildOnSerial => c.devBuildOnSerial
    case WeakJourneys =>
      c.plan.repeat.None? || c.plan.minPass.None? || c.plan.repeat.value < 3 || c.plan.minPass.value < 100
    case InjectedFault => c.plan.inject != []
    case TamperedInstaller => c.plan.tampered || c.plan.omitted
    case DirtyHarness => c.plan.dirty
    case DevBuild => c.plan.devBuild || c.installerDevBuild
  }

  function StainIf(c: Cycle, stain: Stain): seq<Stain> {
    if Stained(c, stain) then [stain] else []
  }

  /** In the order they are looked for. */
  function StainsOf(c: Cycle): seq<Stain> {
    StainIf(c, DevBuildOnSerial) + StainIf(c, WeakJourneys) + StainIf(c, InjectedFault)
    + StainIf(c, TamperedInstaller) + StainIf(c, DirtyHarness) + StainIf(c, DevBuild)
  }

  lemma StainsAreStains(c: Cycle)
    ensures StainsOf(c) == [] <==> CleanAcceptance(c)
    ensures forall stain :: stain in StainsOf(c) <==> Stained(c, stain)
  {
  }

  method FindStains(c: Cycle) returns (stains: seq<Stain>)
    ensures stains == StainsOf(c)
    ensures stains == [] <==> CleanAcceptance(c)
    ensures forall stain :: stain in stains <==> Stained(c, stain)
  {
    stains := [];
    if c.devBuildOnSerial {
      stains := stains + [DevBuildOnSerial];
    }
    ghost var found := StainIf(c, DevBuildOnSerial);
    assert stains == found;
    var (repeat, minPass) := Journeys(c.plan);
    if repeat < MIN_JOURNEYS_REPEAT || minPass < MIN_JOURNEYS_PASS {
      stains := stains + [WeakJourneys];
    }
    found := found + StainIf(c, WeakJourneys);
    assert stains == found;
    if c.plan.inject != [] {
      stains := stains + [InjectedFault];
    }
    found := found + StainIf(c, InjectedFault);
    assert stains == found;
    if c.plan.tampered || c.plan.omitted {
      stains := stains + [TamperedInstaller];
    }
    found := found + StainIf(c, TamperedInstaller);
    assert stains == found;
    if c.plan.dirty {
      stains := stains + [DirtyHarness];
    }
    found := found + StainIf(c, DirtyHarness);
    assert stains == found;
    if c.plan.devBuild || c.installerDevBuild {
      stains := stains + [DevBuild];
    }
    found := found + StainIf(c, DevBuild);
    assert stains == found;
    StainsAreStains(c);
  }

  predicate Unblemished(c: Cycle) {
    c.problems == [] && CleanAcceptance(c)
  }

  // -- which cycles count ---------------------------------------------------------------------------

  /** A later cycle of the same name takes the place of an earlier one. */
  function ByName(cycles: seq<Cycle>, name: CycleName): (r: Option<Cycle>)
    ensures r.Some? ==> r.value in cycles && r.value.name == name
    ensures r.None? ==> forall i :: 0 <= i < |cycles| ==> cycles[i].name != name
  {
    if cycles == [] then None
    else if Last(cycles).name == name then Some(Last(cycles))
    else ByName(Front(cycles), name)
  }

  predicate IsFull(c: Cycle) {
    c.plan.mode == Full && c.plan.inject == [] && (c.name == CycleA || c.name == CycleB)
  }

  predicate IsUpgrade(c: Cycle) {
    c.plan.mode == Upgrade && c.plan.inject == []
  }

  function UpgradesOf(cycles: seq<Cycle>): (r: seq<Cycle>)
    ensures forall c :: c in r <==> c in cycles && IsUpgrade(c)
  {
    if cycles == [] then []
    else if IsUpgrade(Last(cycles)) then UpgradesOf(Front(cycles)) + [Last(cycles)]
    else UpgradesOf(Front(cycles))
  }

  predicate AllAlike<T(==)>(values: seq<T>) {
    forall i, j :: 0 <= i < |values| && 0 <= j < |values| ==> values[i] == values[j]
  }

  lemma ManyMeansDifferent<T>(values: seq<T>, distinct: set<T>)
    requires forall x :: x in distinct <==> x in values
    ensures |distinct| > 1 <==> !AllAlike(values)
  {
    if |distinct| > 1 {
      var x :| x in distinct;
      var rest := distinct - {x};
      assert |rest| >= 1;
      var y :| y in rest;
      assert x in values && y in values;
    } else if !AllAlike(values) {
      var i, j :| 0 <= i < |values| && 0 <= j < |values| && values[i] != values[j];
      assert {values[i], values[j]} <= distinct;
      SubsetIsNoLarger({values[i], values[j]}, distinct);
    }
  }

  method CountDifferent<T(==)>(values: seq<T>) returns (many: bool)
    ensures many <==> !AllAlike(values)
  {
    var seen: set<T> := {};
    for i := 0 to |values|
      invariant forall x :: x in seen <==> x in values[..i]
    {
      assert values[..i + 1] == values[..i] + [values[i]];
      seen := seen + {values[i]};
    }
    assert values[..|values|] == values;
    ManyMeansDifferent(values, seen);
    many := |seen| > 1;
  }

  function InstallersOf(cycles: seq<Cycle>): seq<Installer> {
    seq(|cycles|, i requires 0 <= i < |cycles| => cycles[i].installer)
  }

  function BasesOf(cycles: seq<Cycle>): seq<string> {
    seq(|cycles|, i requires 0 <= i < |cycles| => cycles[i].baseSha)
  }

  function HarnessesOf(cycles: seq<Cycle>): seq<Option<string>> {
    seq(|cycles|, i requires 0 <= i < |cycles| => cycles[i].plan.harnessCommit)
  }

  /** The same installer, base image and harness commit everywhere, the negative cycles included. */
  predicate OneRun(cycles: seq<Cycle>) {
    AllAlike(InstallersOf(cycles)) && AllAlike(BasesOf(cycles)) && AllAlike(HarnessesOf(cycles))
  }

  predicate HexDigit(c: char) { '0' <= c <= '9' || 'a' <= c <= 'f' }

  /** Sixty-four lower-case hex digits; the pattern's `$` also lets one line feed follow. */
  predicate IsSha256(s: Option<string>) {
    s.Some? && (|s.value| == 64 || (|s.value| == 65 && s.value[64] == '\n'))
    && forall i :: 0 <= i < 64 ==> HexDigit(s.value[i])
  }

  predicate Given(s: Option<string>) { s.Some? && s.value != [] }

  predicate WellIdentified(i: Installer) {
    IsSha256(i.sha256) && IsSha256(i.exeSha256) && Given(i.file) && Given(i.version) && Given(i.buildCommit)
  }

  function CountedOf(cycles: seq<Cycle>): seq<Cycle> {
    (if ByName(cycles, CycleA).Some? then [ByName(cycles, CycleA).value] else [])
    + (if ByName(cycles, CycleB).Some? then [ByName(cycles, CycleB).value] else [])
    + (if UpgradesOf(cycles) != [] then [UpgradesOf(cycles)[0]] else [])
  }

  predicate OneSubject(counted: seq<Cycle>) {
    AllAlike(InstallersOf(counted)) && (counted != [] ==> WellIdentified(counted[0].installer))
  }

  predicate CountedAreUnblemished(cycles: seq<Cycle>) {
    forall i :: 0 <= i < |cycles| && (IsFull(cycles[i]) || IsUpgrade(cycles[i])) ==> Unblemished(cycles[i])
  }

  datatype Complaint =
    | ManyUpgrades
    | NotOneRun
    | NotOneInstaller
    | NotIdentified
    | CycleProblem(text: string)
    | CycleStain(stain: Stain)

  /** Of what the counted cycles are about. */
  ghost predicate SubjectObjected(counted: seq<Cycle>, x: Complaint) {
    || (x.NotOneInstaller? && !AllAlike(InstallersOf(counted)))
    || (x.NotIdentified? && AllAlike(InstallersOf(counted)) && counted != [] && !WellIdentified(counted[0].installer))
  }

  method FindSubjectComplaints(counted: seq<Cycle>) returns (complaints: seq<Complaint>)
    ensures complaints == [] <==> OneSubject(counted)
    ensures forall x :: x in complaints <==> SubjectObjected(counted, x)
  {
    complaints := [];
    var many := CountDifferent(InstallersOf(counted));
    if many {
      complaints := [NotOneInstaller];
    } else if counted != [] {
      var inst := counted[0].installer;
      if !IsSha256(inst.sha256) {
        complaints := complaints + [NotIdentified];
      }
      if !IsSha256(inst.exeSha256) {
        complaints := complaints + [NotIdentified];
      }
      if !Given(inst.file) || !Given(inst.version) || !Given(inst.buildCommit) {
        complaints := complaints + [NotIdentified];
      }
    }
  }

  /** Of one cycle: every problem noted when it was loaded and every stain. */
  predicate CycleObjected(c: Cycle, x: Complaint) {
    (x.CycleProblem? && x.text in c.problems) || (x.CycleStain? && Stained(c, x.stain))
  }

  method FindCycleComplaints(c: Cycle) returns (complaints: seq<Complaint>)
    ensures complaints == [] <==> Unblemished(c)
    ensures forall x :: x in complaints <==> CycleObjected(c, x)
  {
    var noted := seq(|c.problems|, i requires 0 <= i < |c.problems| => CycleProblem(c.problems[i]));
    var stains := FindStains(c);
    var stained := seq(|stains|, i requires 0 <= i < |stains| => CycleStain(stains[i]));
    forall text | text in c.problems ensures CycleProblem(text) in noted {
      var i :| 0 <= i < |c.problems| && c.problems[i] == text;
      assert noted[i] == CycleProblem(text);
    }
    forall stain | stain in stains ensures CycleStain(stain) in stained {
      var i :| 0 <= i < |stains| && stains[i] == stain;
      assert stained[i] == CycleStain(stain);
    }
    complaints := noted + stained;
  }

  predicate NothingToComplainAbout(cycles: seq<Cycle>) {
    |UpgradesOf(cycles)| <= 1 && OneRun(cycles) && OneSubject(CountedOf(cycles)) && CountedAreUnblemished(cycles)
  }

  /** Of all the cycles together. */
  ghost predicate RunObjected(cycles: seq<Cycle>, x: Complaint) {
    || (x.ManyUpgrades? && |UpgradesOf(cycles)| > 1)
    || (x.NotOneRun? && exists i, j :: 0 <= i < j < |cycles| && Apart(cycles[i], cycles[j]))
  }

  /** Another installer, base image or harness commit. */
  predicate Apart(c: Cycle, d: Cycle) {
    c.installer != d.installer || c.baseSha != d.baseSha || c.plan.harnessCommit != d.plan.harnessCommit
  }

  lemma OneRunExactly(cycles: seq<Cycle>)
    ensures OneRun(cycles) <==> forall i, j :: 0 <= i < j < |cycles| ==> !Apart(cycles[i], cycles[j])
  {
    if OneRun(cycles) {
      forall i, j | 0 <= i < j < |cycles| ensures !Apart(cycles[i], cycles[j]) {
        assert InstallersOf(cycles)[i] == InstallersOf(cycles)[j];
        assert BasesOf(cycles)[i] == BasesOf(cycles)[j];
        assert HarnessesOf(cycles)[i] == HarnessesOf(cycles)[j];
      }
    } else if forall i, j :: 0 <= i < j < |cycles| ==> !Apart(cycles[i], cycles[j]) {
      forall i, j | 0 <= i < |cycles| && 0 <= j < |cycles| ensures !Apart(cycles[i], cycles[j]) {
        assert i < j || i == j || !Apart(cycles[j], cycles[i]);
      }
    }
  }

  method FindRunComplaints(cycles: seq<Cycle>) returns (complaints: seq<Complaint>)
    ensures complaints == [] <==> |UpgradesOf(cycles)| <= 1 && OneRun(cycles)
    ensures forall x :: x in complaints <==> RunObjected(cycles, x)
  {
    complaints := [];
    if |UpgradesOf(cycles)| > 1 {
      complaints := complaints + [ManyUpgrades];
    }
    var installers := CountDifferent(InstallersOf(cycles));
    if installers {
      complaints := complaints + [NotOneRun];
    }
    var bases := CountDifferent(BasesOf(cycles));
    if bases {
      complaints := complaints + [NotOneRun];
    }
    var harnesses := CountDifferent(HarnessesOf(cycles));
    if harnesses {
      complaints := complaints + [NotOneRun];
    }
    OneRunExactly(cycles);
  }

  predicate Blemished(c: Cycle) {
    (IsFull(c) || IsUpgrade(c)) && !Unblemished(c)
  }

  lemma OneMoreCounted(cycles: seq<Cycle>, k: nat)
    requires k < |cycles|
    ensures CountedAreUnblemished(cycles[..k + 1]) <==> CountedAreUnblemished(cycles[..k]) && !Blemished(cycles[k])
  {
    assert forall i :: 0 <= i < k ==> cycles[..k + 1][i] == cycles[..k][i];
    assert cycles[..k + 1][k] == cycles[k];
  }

  /** A full cycle A or B, or an upgrade cycle, with nothing injected. */
  predicate Counts(c: Cycle) {
    && c.plan.inject == []
    && (c.plan.mode == Upgrade || (c.plan.mode == Full && (c.name == CycleA || c.name == CycleB)))
  }

  /** Of the cycles that are full or upgrade cycles, one by one. */
  ghost predicate CountedObjected(cycles: seq<Cycle>, x: Complaint) {
    exists c :: c in cycles && Counts(c) && CycleObjected(c, x)
  }

  method FindCountedComplaints(cycles: seq<Cycle>) returns (complaints: seq<Complaint>)
    ensures complaints == [] <==> CountedAreUnblemished(cycles)
    ensures forall x :: x in complaints <==> CountedObjected(cycles, x)
  {
    complaints := [];
    for k := 0 to |cycles|
      invariant complaints == [] <==> CountedAreUnblemished(cycles[..k])
      invariant forall x :: x in complaints <==> CountedObjected(cycles[..k], x)
    {
      OneMoreCounted(cycles, k);
      assert cycles[..k + 1] == cycles[..k] + [cycles[k]];
      if IsFull(cycles[k]) || IsUpgrade(cycles[k]) {
        var more := FindCycleComplaints(cycles[k]);
        complaints := complaints + more;
      }
    }
    assert cycles[..|cycles|] == cycles;
  }

  /** Everything there is to complain about. */
  ghost predicate Objected(cycles: seq<Cycle>, x: Complaint) {
    RunObjected(cycles, x) || SubjectObjected(CountedOf(cycles), x) || CountedObjected(cycles, x)
  }

  method FindComplaints(cycles: seq<Cycle>) returns (complaints: seq<Complaint>)
    ensures complaints == [] <==> NothingToComplainAbout(cycles)
    ensures forall x :: x in complaints <==> Objected(cycles, x)
  {
    complaints := FindRunComplaints(cycles);
    var subject := FindSubjectComplaints(CountedOf(cycles));
    var counted := FindCountedComplaints(cycles);
    complaints := complaints + subject + counted;
  }

  // -- the matrix -----------------------------------------------------------------------------------

  datatype Label = LabelA | LabelB | LabelU

  datatype Key = At(sid: ScenarioId, cycle: Label) | Repeatability | Negatives

  datatype Cell = NotRun | Shown(word: Word)

  /** What the matrix shows for a scenario: its own verdict, but no PASS from a cycle that cannot count. */
  function CellOf(c: Option<Cycle>, sid: ScenarioId, rules: Rules): Cell {
    if c.None? || sid !in c.value.records then NotRun
    else
      var word := ScenarioVerdict(c.value, sid, rules).result;
      if word == Pass && !Unblemished(c.value) then Shown(Fail) else Shown(word)
  }

  method Assess(c: Option<Cycle>, sid: ScenarioId, rules: Rules) returns (state: Cell)
    ensures state == CellOf(c, sid, rules)
  {
    state := NotRun;
    if c.Some? && sid in c.value.records {
      state := Shown(ScenarioVerdict(c.value, sid, rules).result);
      if state == Shown(Pass) {
        var stains := FindStains(c.value);
        if c.value.problems != [] || stains != [] {
          state := Shown(Fail);
        }
      }
    }
  }

  predicate InRow(k: Key, ids: seq<ScenarioId>, row: Label) {
    k.At? && k.cycle == row && k.sid in ids
  }

  method Require(matrix: map<Key, Cell>, c: Option<Cycle>, ids: seq<ScenarioId>, row: Label, rules: Rules)
    returns (m: map<Key, Cell>)
    ensures forall k :: k in m <==> k in matrix || InRow(k, ids, row)
    ensures forall k :: k in m ==> m[k] == if InRow(k, ids, row) then CellOf(c, k.sid, rules) else matrix[k]
  {
    m := matrix;
    for i := 0 to |ids|
      invariant forall k :: k in m <==> k in matrix || InRow(k, ids[..i], row)
      invariant forall k :: k in m ==> m[k] == if InRow(k, ids[..i], row) then CellOf(c, k.sid, rules) else matrix[k]
    {
      assert ids[..i + 1] == ids[..i] + [ids[i]];
      var state := Assess(c, ids[i], rules);
      m := m[At(ids[i], row) := state];
    }
    assert ids[..|ids|] == ids;
  }

  // -- two cycles alike -----------------------------------------------------------------------------

  predicate SameResults(a: Cycle, b: Cycle, rules: Rules) {
    && a.records.Keys == b.records.Keys
    && forall sid :: sid in a.records ==> ScenarioVerdict(a, sid, rules).result == ScenarioVerdict(b, sid, rules).result
  }

  /** B is A again: what A's fingerprint holds, B's holds too. A listing only B has is not looked at. */
  predicate Repeats(a: Cycle, b: Cycle, rules: Rules) {
    && a.baseSha != [] && a.baseSha == b.baseSha
    && (a.installed.Some? ==> a.installed == b.installed)
    && SameResults(a, b, rules)
    && a.machine == b.machine
    && a.path != b.path
  }

  datatype Difference = BothNeeded | BaseDiffers | FingerprintDiffers | SameDirectory

  /** What tells B from A. */
  predicate Differs(a: Cycle, b: Cycle, rules: Rules, d: Difference) {
    match d
    case BothNeeded => false
    case BaseDiffers => a.baseSha == [] || b.baseSha != a.baseSha
    case FingerprintDiffers =>
      || (a.installed.Some? && b.installed != a.installed)
      || a.records.Keys != b.records.Keys
      || (exists sid :: sid in a.records && sid in b.records
                        && ScenarioVerdict(a, sid, rules).result != ScenarioVerdict(b, sid, rules).result)
      || a.machine.build != b.machine.build || a.machine.guid != b.machine.guid
    case SameDirectory => a.path == b.path
  }

  method FindDifferences(a: Option<Cycle>, b: Option<Cycle>, rules: Rules) returns (rep: seq<Difference>)
    ensures rep == [] <==> a.Some? && b.Some? && Repeats(a.value, b.value, rules)
    ensures a.None? || b.None? ==> rep == [BothNeeded]
    ensures a.Some? && b.Some? ==> forall d :: d in rep <==> Differs(a.value, b.value, rules, d)
  {
    rep := [];
    if a.None? || b.None? {
      return [BothNeeded];
    }
    if a.value.baseSha == [] || a.value.baseSha != b.value.baseSha {
      rep := rep + [BaseDiffers];
    }
    if a.value.installed.Some? && a.value.installed != b.value.installed {
      rep := rep + [FingerprintDiffers];
    }
    if !SameResults(a.value, b.value, rules) {
      rep := rep + [FingerprintDiffers];
    }
    if a.value.machine.build != b.value.machine.build {
      rep := rep + [FingerprintDiffers];
    }
    if a.value.machine.guid != b.value.machine.guid {
      rep := rep + [FingerprintDiffers];
    }
    if a.value.path == b.value.path {
      rep := rep + [SameDirectory];
    }
  }

  // -- the cycles that carry a fault ----------------------------------------------------------------

  predicate Mentioned(problems: seq<Problem>, fragment: string, wording: Wording) {
    exists i :: 0 <= i < |problems| && wording(problems[i], fragment)
  }

  predicate SeenFailing(c: Cycle, sid: ScenarioId, fragments: seq<string>, rules: Rules, wording: Wording) {
    && sid in c.records
    && ScenarioVerdict(c, sid, rules).result == Fail
    && forall i :: 0 <= i < |fragments| ==> Mentioned(ScenarioVerdict(c, sid, rules).problems, fragments[i], wording)
  }

  predicate FaultSeenIn(c: Cycle, n: Negative, rules: Rules, wording: Wording) {
    && (c.plan.inject != [] || c.plan.tampered || c.plan.omitted)
    && (forall i :: 0 <= i < |n.mustFail| ==> SeenFailing(c, n.mustFail[i].0, n.mustFail[i].1, rules, wording))
    && (forall i :: 0 <= i < |n.mustNotRun| ==> n.mustNotRun[i] !in c.records)
    && c.finished && c.networkProblems == []
  }

  /** The cycle carried a fault, and failed where, and only as far as, it had to. */
  predicate FaultSeen(cycles: seq<Cycle>, n: Negative, rules: Rules, wording: Wording) {
    ByName(cycles, n.name).Some? && FaultSeenIn(ByName(cycles, n.name).value, n, rules, wording)
  }

  method SeesAllFailing(c: Cycle, mustFail: seq<(ScenarioId, seq<string>)>, rules: Rules, wording: Wording)
    returns (good: bool)
    ensures good <==> forall i :: 0 <= i < |mustFail| ==> SeenFailing(c, mustFail[i].0, mustFail[i].1, rules, wording)
  {
    good := true;
    for i := 0 to |mustFail|
      invariant good <==> forall j :: 0 <= j < i ==> SeenFailing(c, mustFail[j].0, mustFail[j].1, rules, wording)
    {
      var failing := SeenFailing(c, mustFail[i].0, mustFail[i].1, rules, wording);
      good := good && failing;
    }
  }

  method SeesNoneRun(c: Cycle, mustNotRun: seq<ScenarioId>) returns (good: bool)
    ensures good <==> forall i :: 0 <= i < |mustNotRun| ==> mustNotRun[i] !in c.records
  {
    good := true;
    for i := 0 to |mustNotRun|
      invariant good <==> forall j :: 0 <= j < i ==> mustNotRun[j] !in c.records
    {
      good := good && mustNotRun[i] !in c.records;
    }
  }

  method CheckNegative(cycles: seq<Cycle>, n: Negative, rules: Rules, wording: Wording) returns (good: bool)
    ensures good <==> FaultSeen(cycles, n, rules, wording)
  {
    var found := ByName(cycles, n.name);
    if found.None? {
      return false;
    }
    var c := found.value;
    if c.plan.inject == [] && !c.plan.tampered && !c.plan.omitted {
      return false;
    }
    var failing := SeesAllFailing(c, n.mustFail, rules, wording);
    var stopped := SeesNoneRun(c, n.mustNotRun);
    good := failing && stopped && c.finished && c.networkProblems == [];
  }

  predicate AllFaultsSeen(cycles: seq<Cycle>, negatives: seq<Negative>, rules: Rules, wording: Wording) {
    forall i :: 0 <= i < |negatives| ==> FaultSeen(cycles, negatives[i], rules, wording)
  }

  method CheckNegatives(cycles: seq<Cycle>, negatives: seq<Negative>, rules: Rules, wording: Wording)
    returns (ok: bool)
    ensures ok <==> AllFaultsSeen(cycles, negatives, rules, wording)
  {
    ok := true;
    for i := 0 to |negatives|
      invariant ok <==> forall j :: 0 <= j < i ==> FaultSeen(cycles, negatives[j], rules, wording)
    {
      var good := CheckNegative(cycles, negatives[i], rules, wording);
      ok := ok && good;
    }
  }

  // -- the verdict ----------------------------------------------------------------------------------

  /** A cycle in which every one of these scenarios is proved, with nothing held against the cycle. */
  ghost predicate Proves(c: Cycle, ids: seq<ScenarioId>, rules: Rules) {
    && Unblemished(c)
    && forall i :: 0 <= i < |ids| ==>
         ids[i] in c.records
         && Evidence(ids[i], c.records[ids[i]], SpokenOf(c.serial, ids[i]), SummaryOf(c.serial, ids[i]),
                     Artefact(c.installer.file, c.installer.sha256), rules(ids[i]))
  }

  /** Everything CLEAN_VM_ACCEPTANCE = PASS claims. */
  ghost predicate Proven(cycles: seq<Cycle>, negatives: seq<Negative>, rules: Rules, wording: Wording) {
    var a, b, upgrades := ByName(cycles, CycleA), ByName(cycles, CycleB), UpgradesOf(cycles);
    && a.Some? && b.Some? && |upgrades| == 1
    && Proves(a.value, FULL_REQUIRED, rules)
    && Proves(b.value, FULL_REQUIRED, rules)
    && Proves(upgrades[0], UPGRADE_REQUIRED, rules)
    && OneRun(cycles) && WellIdentified(a.value.installer) && CountedAreUnblemished(cycles)
    && Repeats(a.value, b.value, rules)
    && negatives != [] && AllFaultsSeen(cycles, negatives, rules, wording)
  }

  ghost predicate AllPass(c: Option<Cycle>, ids: seq<ScenarioId>, rules: Rules) {
    forall i :: 0 <= i < |ids| ==> CellOf(c, ids[i], rules) == Shown(Pass)
  }

  /** A row of PASS cells is the evidence for every scenario in it. */
  lemma RowOfPasses(c: Option<Cycle>, ids: seq<ScenarioId>, rules: Rules)
    requires ids != []
    ensures AllPass(c, ids, rules) <==> c.Some? && Proves(c.value, ids, rules)
  {
    if c.Some? {
      forall i | 0 <= i < |ids| && ids[i] in c.value.records
        ensures ScenarioVerdict(c.value, ids[i], rules).result == Pass
                <==> Evidence(ids[i], c.value.records[ids[i]], SpokenOf(c.value.serial, ids[i]),
                              SummaryOf(c.value.serial, ids[i]),
                              Artefact(c.value.installer.file, c.value.installer.sha256), rules(ids[i]))
      {
        PassExactly(ids[i], c.value.records[ids[i]], SpokenOf(c.value.serial, ids[i]),
                    SummaryOf(c.value.serial, ids[i]),
                    Artefact(c.value.installer.file, c.value.installer.sha256), rules(ids[i]));
      }
      if AllPass(c, ids, rules) {
        assert CellOf(c, ids[0], rules) == Shown(Pass);
      }
    } else {
      assert CellOf(c, ids[0], rules) == NotRun;
    }
  }

  predicate RowPasses(m: map<Key, Cell>, ids: seq<ScenarioId>, row: Label) {
    forall i :: 0 <= i < |ids| ==> At(ids[i], row) in m && m[At(ids[i], row)] == Shown(Pass)
  }

  /** The cycle a row of the matrix is about. */
  function InCycle(row: Label, a: Option<Cycle>, b: Option<Cycle>, u: Option<Cycle>): Option<Cycle> {
    match row
    case LabelA => a
    case LabelB => b
    case LabelU => u
  }

  /** The scenario cells of all three cycles. */
  method FillRows(a: Option<Cycle>, b: Option<Cycle>, u: Option<Cycle>, full: seq<ScenarioId>,
                  upgrade: seq<ScenarioId>, rules: Rules) returns (m: map<Key, Cell>)
    ensures forall k :: k in m <==> InRow(k, full, LabelA) || InRow(k, full, LabelB) || InRow(k, upgrade, LabelU)
    ensures forall k :: k in m ==> k.At? && m[k] == CellOf(InCycle(k.cycle, a, b, u), k.sid, rules)
    ensures RowPasses(m, full, LabelA) <==> AllPass(a, full, rules)
    ensures RowPasses(m, full, LabelB) <==> AllPass(b, full, rules)
    ensures RowPasses(m, upgrade, LabelU) <==> AllPass(u, upgrade, rules)
  {
    var onlyA := Require(map[], a, full, LabelA, rules);
    var both := Require(onlyA, b, full, LabelB, rules);
    m := Require(both, u, upgrade, LabelU, rules);
    RowIs(m, a, full, LabelA, rules);
    RowIs(m, b, full, LabelB, rules);
    RowIs(m, u, upgrade, LabelU, rules);
  }

  lemma RowIs(m: map<Key, Cell>, c: Option<Cycle>, ids: seq<ScenarioId>, row: Label, rules: Rules)
    requires forall k :: InRow(k, ids, row) ==> k in m && m[k] == CellOf(c, k.sid, rules)
    ensures RowPasses(m, ids, row) <==> AllPass(c, ids, rules)
  {
    forall i | 0 <= i < |ids|
      ensures At(ids[i], row) in m && m[At(ids[i], row)] == CellOf(c, ids[i], rules)
    {
      assert InRow(At(ids[i], row), ids, row);
    }
  }

  /** Every cell passes exactly when every row does and so do the two cells of the whole run. */
  lemma AllCells(m: map<Key, Cell>, full: seq<ScenarioId>, upgrade: seq<ScenarioId>)
    requires forall k :: k in m <==> InRow(k, full, LabelA) || InRow(k, full, LabelB) || InRow(k, upgrade, LabelU)
                                     || k == Repeatability || k == Negatives
    ensures (forall k :: k in m ==> m[k] == Shown(Pass))
            <==> RowPasses(m, full, LabelA) && RowPasses(m, full, LabelB) && RowPasses(m, upgrade, LabelU)
                 && m[Repeatability] == Shown(Pass) && m[Negatives] == Shown(Pass)
  {
    assert forall i :: 0 <= i < |full| ==> InRow(At(full[i], LabelA), full, LabelA);
    assert forall i :: 0 <= i < |full| ==> InRow(At(full[i], LabelB), full, LabelB);
    assert forall i :: 0 <= i < |upgrade| ==> InRow(At(upgrade[i], LabelU), upgrade, LabelU);
  }

  datatype Verdict = Verdict(matrix: map<Key, Cell>, complaints: seq<Complaint>, accepted: bool)

  /** A cell for each scenario each cycle needs, showing what that cycle proves of it, and two for the run. */
  ghost predicate MatrixIs(m: map<Key, Cell>, a: Option<Cycle>, b: Option<Cycle>, u: Option<Cycle>,
                           full: seq<ScenarioId>, upgrade: seq<ScenarioId>, rules: Rules)
  {
    && (forall k :: k in m <==> InRow(k, full, LabelA) || InRow(k, full, LabelB) || InRow(k, upgrade, LabelU)
                                || k == Repeatability || k == Negatives)
    && forall k :: k in m && k.At? ==> m[k] == CellOf(InCycle(k.cycle, a, b, u), k.sid, rules)
  }

  /** Repeatability is not run without both cycles, and otherwise passes when B is A again and B's row passes. */
  ghost function RepeatCell(a: Option<Cycle>, b: Option<Cycle>, full: seq<ScenarioId>, rules: Rules): Cell {
    if a.None? || b.None? then NotRun
    else if Repeats(a.value, b.value, rules) && AllPass(b, full, rules) then Shown(Pass)
    else Shown(Fail)
  }

  function FaultCell(negatives: seq<Negative>, faultsSeen: bool): Cell {
    if negatives == [] then NotRun else if faultsSeen then Shown(Pass) else Shown(Fail)
  }

  method FillMatrix(a: Option<Cycle>, b: Option<Cycle>, u: Option<Cycle>, full: seq<ScenarioId>,
                    upgrade: seq<ScenarioId>, rules: Rules, negatives: seq<Negative>, faultsSeen: bool)
    returns (m: map<Key, Cell>)
    ensures (forall k :: k in m ==> m[k] == Shown(Pass))
            <==> AllPass(a, full, rules) && AllPass(b, full, rules) && AllPass(u, upgrade, rules)
                 && a.Some? && b.Some? && Repeats(a.value, b.value, rules)
                 && negatives != [] && faultsSeen
    ensures MatrixIs(m, a, b, u, full, upgrade, rules)
    ensures m[Repeatability] == RepeatCell(a, b, full, rules) && m[Negatives] == FaultCell(negatives, faultsSeen)
  {
    m := FillRows(a, b, u, full, upgrade, rules);
    var rep := FindDifferences(a, b, rules);
    var repeated := if rep == [] && RowPasses(m, full, LabelB) then Shown(Pass)
                    else if a.None? || b.None? then NotRun else Shown(Fail);
    var seen := if negatives != [] && faultsSeen then Shown(Pass)
                else if negatives == [] then NotRun else Shown(Fail);
    WholeMatrix(m, repeated, seen, full, upgrade);
    MatrixFilled(m, repeated, seen, a, b, u, full, upgrade, rules);
    m := m[Repeatability := repeated][Negatives := seen];
  }

  lemma MatrixFilled(rows: map<Key, Cell>, repeated: Cell, seen: Cell, a: Option<Cycle>, b: Option<Cycle>,
                     u: Option<Cycle>, full: seq<ScenarioId>, upgrade: seq<ScenarioId>, rules: Rules)
    requires forall k :: k in rows <==> InRow(k, full, LabelA) || InRow(k, full, LabelB) || InRow(k, upgrade, LabelU)
    requires forall k :: k in rows ==> k.At? && rows[k] == CellOf(InCycle(k.cycle, a, b, u), k.sid, rules)
    ensures MatrixIs(rows[Repeatability := repeated][Negatives := seen], a, b, u, full, upgrade, rules)
  {
  }

  lemma RowsStay(m: map<Key, Cell>, n: map<Key, Cell>, ids: seq<ScenarioId>, row: Label)
    requires forall k: Key :: k.At? ==> Get(m, k) == Get(n, k)
    ensures RowPasses(m, ids, row) <==> RowPasses(n, ids, row)
  {
    assert forall i :: 0 <= i < |ids| ==> Get(m, At(ids[i], row)) == Get(n, At(ids[i], row));
  }

  lemma WholeMatrix(rows: map<Key, Cell>, repeated: Cell, seen: Cell, full: seq<ScenarioId>, upgrade: seq<ScenarioId>)
    requires forall k :: k in rows <==> InRow(k, full, LabelA) || InRow(k, full, LabelB) || InRow(k, upgrade, LabelU)
    ensures var m := rows[Repeatability := repeated][Negatives := seen];
            (forall k :: k in m ==> m[k] == Shown(Pass))
            <==> RowPasses(rows, full, LabelA) && RowPasses(rows, full, LabelB) && RowPasses(rows, upgrade, LabelU)
                 && repeated == Shown(Pass) && seen == Shown(Pass)
  {
    var m := rows[Repeatability := repeated][Negatives := seen];
    RowsStay(rows, m, full, LabelA);
    RowsStay(rows, m, full, LabelB);
    RowsStay(rows, m, upgrade, LabelU);
    AllCells(m, full, upgrade);
  }

  /** The upgrade cycle the third row is about: the first. */
  function UpgradeOf(cycles: seq<Cycle>): Option<Cycle> {
    if UpgradesOf(cycles) == [] then None else Some(UpgradesOf(cycles)[0])
  }

  /** The verdict is PASS for exactly what it claims, and it claims it of the evidence itself: no recorded
      result and no summary line is believed. */
  method JudgeRun(cycles: seq<Cycle>, negatives: seq<Negative>, rules: Rules, wording: Wording)
    returns (v: Verdict)
    ensures v.accepted <==> Proven(cycles, negatives, rules, wording)
    ensures forall x :: x in v.complaints <==> Objected(cycles, x)
    ensures MatrixIs(v.matrix, ByName(cycles, CycleA), ByName(cycles, CycleB), UpgradeOf(cycles), FULL_REQUIRED,
                     UPGRADE_REQUIRED, rules)
    ensures v.matrix[Repeatability] == RepeatCell(ByName(cycles, CycleA), ByName(cycles, CycleB), FULL_REQUIRED, rules)
    ensures v.matrix[Negatives] == FaultCell(negatives, AllFaultsSeen(cycles, negatives, rules, wording))
  {
    var a, b, upgrades := ByName(cycles, CycleA), ByName(cycles, CycleB), UpgradesOf(cycles);
    var u := if upgrades == [] then None else Some(upgrades[0]);
    assert u == UpgradeOf(cycles);
    var complaints := FindComplaints(cycles);
    var faultsSeen := CheckNegatives(cycles, negatives, rules, wording);
    var m := FillMatrix(a, b, u, FULL_REQUIRED, UPGRADE_REQUIRED, rules, negatives, faultsSeen);
    var allPass := forall k :: k in m ==> m[k] == Shown(Pass);
    v := Verdict(m, complaints, allPass && complaints == []);
    RowOfPasses(a, FULL_REQUIRED, rules);
    RowOfPasses(b, FULL_REQUIRED, rules);
    RowOfPasses(u, UPGRADE_REQUIRED, rules);
    if OneRun(cycles) {
      CountedAreOne(cycles);
    }
  }

  lemma CountedAreOne(cycles: seq<Cycle>)
    requires OneRun(cycles)
    ensures AllAlike(InstallersOf(CountedOf(cycles)))
  {
    var counted := CountedOf(cycles);
    forall i, j | 0 <= i < |counted| && 0 <= j < |counted| ensures counted[i].installer == counted[j].installer {
      assert counted[i] in cycles && counted[j] in cycles;
      var m :| 0 <= m < |cycles| && cycles[m] == counted[i];
      var n :| 0 <= n < |cycles| && cycles[n] == counted[j];
      assert InstallersOf(cycles)[m] == InstallersOf(cycles)[n];
    }
  }
}
