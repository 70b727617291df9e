/** One scenario of a clean-machine run, judged from what the guest recorded and what the host heard on
    the serial line. The guest's own verdict is only ever something to disagree with. */
module ScenarioJudge {
  import opened Common

  datatype ScenarioId = Numbered(number: nat) | Contamination | Unlisted(text: string)

  datatype Word = Pass | Fail | Blocked | NotApplicable | Other(text: string)

  // -- the serial line ------------------------------------------------------------------------------

  /** A serial line, by which of the two patterns it fits; RESULT is tried first. */
  datatype SerialLine =
    | ResultLine(sid: ScenarioId, verdict: Word, count: nat, failed: nat)
    | AssertLine(sid: ScenarioId, pass: bool, name: string)
    | OtherLine

  datatype Spoken = Spoken(pass: bool, name: string)

  datatype Summary = Summary(verdict: Word, count: nat, failed: nat)

  /** Everything said about one scenario, in order. */
  function SpokenOf(lines: seq<SerialLine>, sid: ScenarioId): seq<Spoken> {
    if lines == [] then []
    else if Last(lines).AssertLine? && Last(lines).sid == sid
    then SpokenOf(Front(lines), sid) + [Spoken(Last(lines).pass, Last(lines).name)]
    else SpokenOf(Front(lines), sid)
  }

  /** The latest RESULT line for one scenario. */
  function SummaryOf(lines: seq<SerialLine>, sid: ScenarioId): Option<Summary> {
    if lines == [] then None
    else if Last(lines).ResultLine? && Last(lines).sid == sid
    then Some(Summary(Last(lines).verdict, Last(lines).count, Last(lines).failed))
    else SummaryOf(Front(lines), sid)
  }

  function Get<K, V>(m: map<K, V>, k: K): Option<V> {
    if k in m then Some(m[k]) else None
  }

  method ParseSerial(lines: seq<SerialLine>)
    returns (asserts: map<ScenarioId, seq<Spoken>>, results: map<ScenarioId, Summary>)
    ensures forall sid :: Lookup(asserts, sid, []) == SpokenOf(lines, sid)
    ensures forall sid :: Get(results, sid) == SummaryOf(lines, sid)
  {
    asserts, results := map[], map[];
    for i := 0 to |lines|
      invariant forall sid :: Lookup(asserts, sid, []) == SpokenOf(lines[..i], sid)
      invariant forall sid :: Get(results, sid) == SummaryOf(lines[..i], sid)
    {
      assert Front(lines[..i + 1]) == lines[..i];
      match lines[i]
      case ResultLine(sid, verdict, count, failed) =>
        results := results[sid := Summary(verdict, count, failed)];
      case AssertLine(sid, pass, name) =>
        asserts := asserts[sid := Lookup(asserts, sid, []) + [Spoken(pass, name)]];
      case OtherLine =>
    }
    assert lines[..|lines|] == lines;
  }

  // -- a record and its problems --------------------------------------------------------------------

  datatype Assertion = Assertion(name: Option<string>, ok: bool)

  datatype Artefact = Artefact(file: Option<string>, sha256: Option<string>)

  datatype Problem =
    | ResultDisagrees(recorded: Option<Word>, derived: Word)
    | AssertionFailed(name: Option<string>)
    | Forced
    | NothingAsserted
    | NotOnSerial(name: Option<string>, pass: bool)
    | CountDiffers(spoken: nat, recordedCount: nat)
    | SummaryDisagrees(summary: Summary)
    | NoSummary
    | RequiredMissing(fragment: string)
    | WrongArtefact(artefact: Artefact)
    | LogProblem(text: string)
    | ProfileProblem(text: string)

  /** result.json, with what re-reading its journeys logs and the kept profile turned up. */
  datatype Record = Record(result: Option<Word>, forced: bool, asserts: seq<Assertion>, artefact: Artefact,
                           logs: seq<Problem>, profile: seq<Problem>)

  datatype Judged = Judged(result: Word, problems: seq<Problem>)

  function FailedOf(asserts: seq<Assertion>): seq<Assertion> {
    if asserts == [] then []
    else if Last(asserts).ok then FailedOf(Front(asserts))
    else FailedOf(Front(asserts)) + [Last(asserts)]
  }

  function Derived(rec: Record): Word {
    if FailedOf(rec.asserts) != [] then Fail
    else if rec.forced && (rec.result == Some(Blocked) || rec.result == Some(NotApplicable)) then rec.result.value
    else if rec.forced || rec.asserts == [] then Fail
    else Pass
  }

  function FailureProblems(failed: seq<Assertion>): (r: seq<Problem>)
    ensures |r| == |failed|
  {
    if failed == [] then []
    else FailureProblems(Front(failed)) + [AssertionFailed(Last(failed).name)]
  }

  predicate OnSerial(a: Assertion, spoken: seq<Spoken>) {
    a.name.Some? && Spoken(a.ok, a.name.value) in spoken
  }

  function SerialProblems(asserts: seq<Assertion>, spoken: seq<Spoken>): seq<Problem> {
    if asserts == [] then []
    else if OnSerial(Last(asserts), spoken) then SerialProblems(Front(asserts), spoken)
    else SerialProblems(Front(asserts), spoken) + [NotOnSerial(Last(asserts).name, Last(asserts).ok)]
  }

  predicate Contains(text: string, fragment: string) {
    exists i :: 0 <= i <= |text| && fragment <= text[i..]
  }

  function NameText(a: Assertion): string {
    if a.name.Some? then a.name.value else []
  }

  predicate Covered(fragment: string, asserts: seq<Assertion>) {
    exists i :: 0 <= i < |asserts| && Contains(NameText(asserts[i]), fragment)
  }

  function RequiredProblems(required: seq<string>, asserts: seq<Assertion>): seq<Problem> {
    if required == [] then []
    else if Covered(Last(required), asserts) then RequiredProblems(Front(required), asserts)
    else RequiredProblems(Front(required), asserts) + [RequiredMissing(Last(required))]
  }

  function SummaryProblems(rec: Record, summary: Option<Summary>): seq<Problem> {
    if summary.None? then [NoSummary]
    else if rec.result == Some(summary.value.verdict) && summary.value.count == |rec.asserts|
            && summary.value.failed == |FailedOf(rec.asserts)|
    then []
    else [SummaryDisagrees(summary.value)]
  }

  function Complain(when: bool, problem: Problem): seq<Problem> {
    if when then [problem] else []
  }

  predicate KeepsAProfile(sid: ScenarioId) { sid == Numbered(12) || sid == Numbered(13) }

  /** What the record says against itself. */
  function RecordProblems(rec: Record): seq<Problem> {
    Complain(rec.result != Some(Derived(rec)), ResultDisagrees(rec.result, Derived(rec)))
    + FailureProblems(FailedOf(rec.asserts))
    + Complain(rec.forced, Forced)
    + Complain(rec.asserts == [], NothingAsserted)
  }

  /** What the serial line says against it. */
  function ChannelProblems(rec: Record, spoken: seq<Spoken>, summary: Option<Summary>): seq<Problem> {
    SerialProblems(rec.asserts, spoken)
    + Complain(|spoken| != |rec.asserts|, CountDiffers(|spoken|, |rec.asserts|))
    + SummaryProblems(rec, summary)
  }

  /** What the judge's own rules say against it. */
  function RuleProblems(sid: ScenarioId, rec: Record, expected: Artefact, required: seq<string>): seq<Problem> {
    RequiredProblems(required, rec.asserts)
    + Complain(rec.artefact != expected, WrongArtefact(rec.artefact))
    + rec.logs
    + (if KeepsAProfile(sid) then rec.profile else [])
  }

  function Judge(sid: ScenarioId, rec: Record, spoken: seq<Spoken>, summary: Option<Summary>, expected: Artefact,
                 required: seq<string>): Judged
  {
    var problems := RecordProblems(rec) + ChannelProblems(rec, spoken, summary)
                    + RuleProblems(sid, rec, expected, required);
    Judged(if problems == [] && Derived(rec) == Pass then Pass
           else if Derived(rec) == Blocked && FailedOf(rec.asserts) == [] then Blocked
           else Fail,
           problems)
  }

  method FindFailed(asserts: seq<Assertion>) returns (failed: seq<Assertion>)
    ensures failed == FailedOf(asserts)
  {
    failed := [];
    for i := 0 to |asserts|
      invariant failed == FailedOf(asserts[..i])
    {
      assert Front(asserts[..i + 1]) == asserts[..i];
      if !asserts[i].ok {
        failed := failed + [asserts[i]];
      }
    }
    assert asserts[..|asserts|] == asserts;
  }

  method ReportFailed(failed: seq<Assertion>) returns (problems: seq<Problem>)
    ensures problems == FailureProblems(failed)
  {
    problems := [];
    for i := 0 to |failed|
      invariant problems == FailureProblems(failed[..i])
    {
      assert Front(failed[..i + 1]) == failed[..i];
      problems := problems + [AssertionFailed(failed[i].name)];
    }
    assert failed[..|failed|] == failed;
  }

  method FindRecordProblems(rec: Record) returns (problems: seq<Problem>, derived: Word, failed: seq<Assertion>)
    ensures problems == RecordProblems(rec) && derived == Derived(rec) && failed == FailedOf(rec.asserts)
  {
    failed := FindFailed(rec.asserts);
    derived := if failed != [] then Fail
               else if rec.forced && (rec.result == Some(Blocked) || rec.result == Some(NotApplicable))
               then rec.result.value
               else if rec.forced || rec.asserts == [] then Fail
               else Pass;
    problems := [];
    if rec.result != Some(derived) {
      problems := problems + [ResultDisagrees(rec.result, derived)];
    }
    assert problems == Complain(rec.result != Some(derived), ResultDisagrees(rec.result, derived));
    var failures := ReportFailed(failed);
    problems := problems + failures;
    if rec.forced {
      problems := problems + [Forced];
    }
    if rec.asserts == [] {
      problems := problems + [NothingAsserted];
    }
  }

  method FindChannelProblems(rec: Record, failed: seq<Assertion>, spoken: seq<Spoken>, summary: Option<Summary>)
    returns (problems: seq<Problem>)
    requires failed == FailedOf(rec.asserts)
    ensures problems == ChannelProblems(rec, spoken, summary)
  {
    problems := [];
    var asserts := rec.asserts;
    for i := 0 to |asserts|
      invariant problems == SerialProblems(asserts[..i], spoken)
    {
      assert Front(asserts[..i + 1]) == asserts[..i];
      if asserts[i].name.None? || Spoken(asserts[i].ok, asserts[i].name.value) !in spoken {
        problems := problems + [NotOnSerial(asserts[i].name, asserts[i].ok)];
      }
    }
    assert asserts[..|asserts|] == asserts;
    if |spoken| != |asserts| {
      problems := problems + [CountDiffers(|spoken|, |asserts|)];
    }
    if summary.None? {
      problems := problems + [NoSummary];
    } else if rec.result != Some(summary.value.verdict) || summary.value.count != |asserts|
              || summary.value.failed != |failed| {
      problems := problems + [SummaryDisagrees(summary.value)];
    }
  }

  method FindRuleProblems(sid: ScenarioId, rec: Record, expected: Artefact, required: seq<string>)
    returns (problems: seq<Problem>)
    ensures problems == RuleProblems(sid, rec, expected, required)
  {
    problems := [];
    for i := 0 to |required|
      invariant problems == RequiredProblems(required[..i], rec.asserts)
    {
      assert Front(required[..i + 1]) == required[..i];
      if !Covered(required[i], rec.asserts) {
        problems := problems + [RequiredMissing(required[i])];
      }
    }
    assert required[..|required|] == required;
    if rec.artefact.sha256 != expected.sha256 || rec.artefact.file != expected.file {
      problems := problems + [WrongArtefact(rec.artefact)];
    }
    problems := problems + rec.logs;
    if sid == Numbered(12) || sid == Numbered(13) {
      problems := problems + rec.profile;
    }
  }

  method JudgeScenario(sid: ScenarioId, rec: Record, asserts: map<ScenarioId, seq<Spoken>>,
                       results: map<ScenarioId, Summary>, expected: Artefact, required: seq<string>)
    returns (s: Judged)
    ensures s == Judge(sid, rec, Lookup(asserts, sid, []), Get(results, sid), expected, required)
  {
    var problems, derived, failed := FindRecordProblems(rec);
    var channel := FindChannelProblems(rec, failed, Lookup(asserts, sid, []), Get(results, sid));
    var rules := FindRuleProblems(sid, rec, expected, required);
    problems := problems + channel + rules;
    s := Judged(if problems == [] && derived == Pass then Pass
                else if derived == Blocked && failed == [] then Blocked
                else Fail,
                problems);
  }

  // -- what a verdict means -------------------------------------------------------------------------

  lemma {:induction false} NoneFailed(asserts: seq<Assertion>)
    ensures FailedOf(asserts) == [] <==> forall i :: 0 <= i < |asserts| ==> asserts[i].ok
  {
    if asserts != [] {
      NoneFailed(Front(asserts));
      assert forall i :: 0 <= i < |asserts| - 1 ==> asserts[i] == Front(asserts)[i];
    }
  }

  lemma {:induction false} AllOnSerial(asserts: seq<Assertion>, spoken: seq<Spoken>)
    ensures SerialProblems(asserts, spoken) == []
            <==> forall i :: 0 <= i < |asserts| ==> OnSerial(asserts[i], spoken)
  {
    if asserts != [] {
      AllOnSerial(Front(asserts), spoken);
      assert forall i :: 0 <= i < |asserts| - 1 ==> asserts[i] == Front(asserts)[i];
    }
  }

  lemma AllButLast<T(!new)>(p: T -> bool, s: seq<T>)
    requires s != []
    ensures (forall i :: 0 <= i < |s| ==> p(s[i]))
            <==> p(Last(s)) && forall i :: 0 <= i < |Front(s)| ==> p(Front(s)[i])
  {
    assert forall i :: 0 <= i < |s| - 1 ==> s[i] == Front(s)[i];
  }

  lemma {:induction false} AllCovered(required: seq<string>, asserts: seq<Assertion>)
    ensures RequiredProblems(required, asserts) == []
            <==> forall i :: 0 <= i < |required| ==> Covered(required[i], asserts)
  {
    if required != [] {
      AllCovered(Front(required), asserts);
      AllButLast((fragment: string) => Covered(fragment, asserts), required);
    }
  }

  /** The evidence a PASS stands for: the guest and the host agree on every single check, the checks are
      the ones asked for, and they were made on the installer that was published. */
  ghost predicate Evidence(sid: ScenarioId, rec: Record, spoken: seq<Spoken>, summary: Option<Summary>,
                           expected: Artefact, required: seq<string>)
  {
    && rec.asserts != [] && !rec.forced && rec.result == Some(Pass)
    && (forall i :: 0 <= i < |rec.asserts| ==> rec.asserts[i].ok && OnSerial(rec.asserts[i], spoken))
    && |spoken| == |rec.asserts|
    && summary == Some(Summary(Pass, |rec.asserts|, 0))
    && (forall i :: 0 <= i < |required| ==> Covered(required[i], rec.asserts))
    && rec.artefact == expected
    && rec.logs == [] && (KeepsAProfile(sid) ==> rec.profile == [])
  }

  /** PASS is given for exactly that evidence. */
  lemma PassExactly(sid: ScenarioId, rec: Record, spoken: seq<Spoken>, summary: Option<Summary>, expected: Artefact,
                    required: seq<string>)
    ensures Judge(sid, rec, spoken, summary, expected, required).result == Pass
            <==> Evidence(sid, rec, spoken, summary, expected, required)
  {
    NoneFailed(rec.asserts);
    AllOnSerial(rec.asserts, spoken);
    AllCovered(required, rec.asserts);
  }

  /** BLOCKED is given exactly to a record that was forced, says so itself, and failed nothing. */
  lemma BlockedExactly(sid: ScenarioId, rec: Record, spoken: seq<Spoken>, summary: Option<Summary>,
                       expected: Artefact, required: seq<string>)
    ensures Judge(sid, rec, spoken, summary, expected, required).result == Blocked
            <==> rec.forced && rec.result == Some(Blocked)
                 && forall i :: 0 <= i < |rec.asserts| ==> rec.asserts[i].ok
  {
    NoneFailed(rec.asserts);
  }

  // -- counting: no failure is hidden among the passes ------------------------------------------------

  function Wanted(asserts: seq<Assertion>): seq<Spoken> {
    seq(|asserts|, i requires 0 <= i < |asserts| => Spoken(true, NameText(asserts[i])))
  }

  lemma {:induction false} OnceEach<T>(s: seq<T>, x: T)
    requires Distinct(s)
    ensures multiset(s)[x] <= 1
  {
    if s != [] {
      OnceEach(Front(s), x);
      assert s == Front(s) + [Last(s)];
      if x == Last(s) {
        assert x !in Front(s);
        assert multiset(Front(s))[x] == 0;
      }
    }
  }

  /** As many pigeons as holes, no two pigeons alike, every pigeon in a hole: the holes hold nothing else. */
  lemma Pigeonhole<T>(pigeons: seq<T>, holes: seq<T>)
    requires Distinct(pigeons) && |pigeons| == |holes|
    requires forall x :: x in pigeons ==> x in holes
    ensures multiset(pigeons) == multiset(holes)
  {
    forall x ensures multiset(pigeons)[x] <= multiset(holes)[x] {
      OnceEach(pigeons, x);
      if x in multiset(pigeons) {
        assert x in pigeons && x in holes && x in multiset(holes);
      }
    }
    var rest := multiset(holes) - multiset(pigeons);
    assert multiset(holes) == multiset(pigeons) + rest;
    assert |rest| == 0;
  }

  ghost predicate NamesDiffer(asserts: seq<Assertion>) {
    Distinct(Wanted(asserts))
  }

  ghost predicate NoFailSpoken(spoken: seq<Spoken>) {
    forall i :: 0 <= i < |spoken| ==> spoken[i].pass
  }

  /** When a scenario passes and its checks have different names, the serial line said exactly those
      checks, each once and each as a PASS. */
  lemma SerialIsExactlyTheChecks(sid: ScenarioId, rec: Record, spoken: seq<Spoken>, summary: Option<Summary>,
                                 expected: Artefact, required: seq<string>)
    requires Judge(sid, rec, spoken, summary, expected, required).result == Pass
    requires NamesDiffer(rec.asserts)
    ensures multiset(spoken) == multiset(Wanted(rec.asserts))
    ensures NoFailSpoken(spoken)
  {
    PassExactly(sid, rec, spoken, summary, expected, required);
    var wanted := Wanted(rec.asserts);
    forall x | x in wanted ensures x in spoken {
      var i :| 0 <= i < |wanted| && wanted[i] == x;
      assert OnSerial(rec.asserts[i], spoken);
    }
    Pigeonhole(wanted, spoken);
    forall i | 0 <= i < |spoken| ensures spoken[i].pass {
      assert spoken[i] in multiset(spoken) && spoken[i] in multiset(wanted);
    }
  }

  /** Two checks of one name: a FAIL of the second is heard by the host and the scenario still passes. */
  lemma SameNameHidesAFailure(sid: ScenarioId, rec: Record, spoken: seq<Spoken>, summary: Option<Summary>,
                              expected: Artefact, required: seq<string>) returns (other: seq<Spoken>)
    requires Judge(sid, rec, spoken, summary, expected, required).result == Pass
    requires !NamesDiffer(rec.asserts)
    ensures Judge(sid, rec, other, summary, expected, required).result == Pass && !NoFailSpoken(other)
  {
    PassExactly(sid, rec, spoken, summary, expected, required);
    var wanted := Wanted(rec.asserts);
    var i, j :| 0 <= i < j < |wanted| && wanted[i] == wanted[j];
    other := wanted[j := Spoken(false, NameText(rec.asserts[j]))];
    forall k | 0 <= k < |rec.asserts| ensures OnSerial(rec.asserts[k], other) {
      assert OnSerial(rec.asserts[k], spoken);
      assert other[if k == j then i else k] == wanted[k];
    }
    PassExactly(sid, rec, other, summary, expected, required);
    assert !other[j].pass;
  }

  ghost predicate Passes(sid: ScenarioId, rec: Record, spoken: seq<Spoken>, summary: Option<Summary>,
                         expected: Artefact, required: seq<string>)
  {
    Judge(sid, rec, spoken, summary, expected, required).result == Pass
  }

  /** So PASS rules out a FAIL on the serial line exactly for scenarios whose checks have different names. */
  lemma NoFailLineExactly(sid: ScenarioId, rec: Record, summary: Option<Summary>, expected: Artefact,
                          required: seq<string>)
    requires exists spoken :: Passes(sid, rec, spoken, summary, expected, required)
    ensures NamesDiffer(rec.asserts)
            <==> forall spoken :: Passes(sid, rec, spoken, summary, expected, required) ==> NoFailSpoken(spoken)
  {
    if NamesDiffer(rec.asserts) {
      forall spoken | Passes(sid, rec, spoken, summary, expected, required) ensures NoFailSpoken(spoken) {
        SerialIsExactlyTheChecks(sid, rec, spoken, summary, expected, required);
      }
    } else {
      var spoken :| Passes(sid, rec, spoken, summary, expected, required);
      var other := SameNameHidesAFailure(sid, rec, spoken, summary, expected, required);
      assert Passes(sid, rec, other, summary, expected, required) && !NoFailSpoken(other);
    }
  }
}
