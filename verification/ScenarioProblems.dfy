/** What the judge of one scenario objects to: every objection has its reason, every reason its objection, and
    none is made twice. */
module ScenarioProblems {
  import opened Common
  import opened ScenarioJudge

  // -- what was heard --------------------------------------------------------------------------------

  ghost predicate Says(line: SerialLine, sid: ScenarioId, s: Spoken) {
    line == AssertLine(sid, s.pass, s.name)
  }

  /** What counts as said about a scenario is its assertion lines, all of them and in their order. */
  lemma {:induction false} HeardExactly(lines: seq<SerialLine>, sid: ScenarioId)
    ensures var about := Filter((l: SerialLine) => l.AssertLine? && l.sid == sid, lines);
            var spoken := SpokenOf(lines, sid);
            |spoken| == |about| && forall i :: 0 <= i < |spoken| ==> Says(about[i], sid, spoken[i])
  {
    if lines != [] {
      var keep := (l: SerialLine) => l.AssertLine? && l.sid == sid;
      HeardExactly(Front(lines), sid);
      FilterLast(keep, lines);
    }
  }

  ghost predicate IsSummary(line: SerialLine, sid: ScenarioId) {
    line.ResultLine? && line.sid == sid
  }

  /** The summary that counts is the latest. */
  lemma {:induction false} LatestSummary(lines: seq<SerialLine>, sid: ScenarioId, i: nat)
    requires i < |lines| && IsSummary(lines[i], sid)
    requires forall j :: i < j < |lines| ==> !IsSummary(lines[j], sid)
    ensures SummaryOf(lines, sid) == Some(Summary(lines[i].verdict, lines[i].count, lines[i].failed))
    decreases |lines|
  {
    if i < |lines| - 1 {
      assert !IsSummary(Last(lines), sid);
      LatestSummary(Front(lines), sid, i);
    }
  }

  lemma {:induction false} NoSummaryHeard(lines: seq<SerialLine>, sid: ScenarioId)
    requires forall line :: line in lines ==> !IsSummary(line, sid)
    ensures SummaryOf(lines, sid).None?
  {
    if lines != [] {
      assert !IsSummary(Last(lines), sid) && forall line :: line in Front(lines) ==> line in lines;
      NoSummaryHeard(Front(lines), sid);
    }
  }

  // -- the parts of a judgement ------------------------------------------------------------------------

  lemma {:induction false} FailedAreFiltered(asserts: seq<Assertion>)
    ensures FailedOf(asserts) == Filter((a: Assertion) => !a.ok, asserts)
  {
    if asserts != [] {
      FailedAreFiltered(Front(asserts));
      FilterLast((a: Assertion) => !a.ok, asserts);
    }
  }

  lemma {:induction false} FailuresNamed(failed: seq<Assertion>)
    ensures forall i :: 0 <= i < |failed| ==> FailureProblems(failed)[i] == AssertionFailed(failed[i].name)
  {
    if failed != [] {
      FailuresNamed(Front(failed));
    }
  }

  ghost predicate Unheard(a: Assertion, spoken: seq<Spoken>) {
    a.name.None? || Spoken(a.ok, a.name.value) !in spoken
  }

  lemma {:induction false} UnheardNamed(asserts: seq<Assertion>, spoken: seq<Spoken>)
    ensures var unheard := Filter((a: Assertion) => Unheard(a, spoken), asserts);
            var problems := SerialProblems(asserts, spoken);
            |problems| == |unheard|
            && forall i :: 0 <= i < |problems| ==> problems[i] == NotOnSerial(unheard[i].name, unheard[i].ok)
  {
    if asserts != [] {
      UnheardNamed(Front(asserts), spoken);
      FilterLast((a: Assertion) => Unheard(a, spoken), asserts);
    }
  }

  /** The fragment stands somewhere in the name. */
  ghost predicate Mentions(a: Assertion, fragment: string) {
    exists front, back :: NameText(a) == front + fragment + back
  }

  lemma ContainsExactly(text: string, fragment: string)
    ensures Contains(text, fragment) <==> exists front, back :: text == front + fragment + back
  {
    if Contains(text, fragment) {
      var i :| 0 <= i <= |text| && fragment <= text[i..];
      assert text == text[..i] + fragment + text[i..][|fragment|..];
    }
    if front, back :| text == front + fragment + back {
      assert text[|front|..] == fragment + back;
    }
  }

  ghost predicate Missing(fragment: string, asserts: seq<Assertion>) {
    forall a :: a in asserts ==> !Mentions(a, fragment)
  }

  lemma MissingExactly(fragment: string, asserts: seq<Assertion>)
    ensures Missing(fragment, asserts) <==> !Covered(fragment, asserts)
  {
    forall a | a in asserts ensures Mentions(a, fragment) <==> Contains(NameText(a), fragment) {
      ContainsExactly(NameText(a), fragment);
    }
    if !Missing(fragment, asserts) {
      var a :| a in asserts && Mentions(a, fragment);
      var i :| 0 <= i < |asserts| && asserts[i] == a;
      assert Contains(NameText(asserts[i]), fragment);
    }
  }

  lemma {:induction false} UncoveredNamed(required: seq<string>, asserts: seq<Assertion>)
    ensures var missing := Filter((f: string) => !Covered(f, asserts), required);
            var problems := RequiredProblems(required, asserts);
            |problems| == |missing| && forall i :: 0 <= i < |problems| ==> problems[i] == RequiredMissing(missing[i])
  {
    if required != [] {
      UncoveredNamed(Front(required), asserts);
      FilterLast((f: string) => !Covered(f, asserts), required);
    }
  }

  lemma MissingNamed(required: seq<string>, asserts: seq<Assertion>)
    ensures var missing := Filter((f: string) => Missing(f, asserts), required);
            var problems := RequiredProblems(required, asserts);
            |problems| == |missing| && forall i :: 0 <= i < |problems| ==> problems[i] == RequiredMissing(missing[i])
  {
    forall f ensures Missing(f, asserts) == !Covered(f, asserts) {
      MissingExactly(f, asserts);
    }
    FilterAlike((f: string) => Missing(f, asserts), (f: string) => !Covered(f, asserts), required);
    UncoveredNamed(required, asserts);
  }

  // -- which objections are made -------------------------------------------------------------------------

  /** What the checks themselves come to: a failed one is a failure; a forced record keeps the word it was forced
      to, if it is one of the two that may be; without a check nothing passes. */
  ghost predicate ComesTo(rec: Record, word: Word) {
    if exists a :: a in rec.asserts && !a.ok then word == Fail
    else if rec.forced then
      if rec.result == Some(Blocked) then word == Blocked
      else if rec.result == Some(NotApplicable) then word == NotApplicable
      else word == Fail
    else word == if rec.asserts == [] then Fail else Pass
  }

  lemma DerivedExactly(rec: Record, word: Word)
    ensures word == Derived(rec) <==> ComesTo(rec, word)
  {
    FailedAreFiltered(rec.asserts);
    var failed := FailedOf(rec.asserts);
    assert failed != [] ==> failed[0] in failed;
  }

  /** Of the record's own objections: exactly these, the failed checks one by one. */
  lemma RecordObjections(rec: Record, p: Problem)
    ensures p in RecordProblems(rec) <==>
              match p
              case ResultDisagrees(recorded, derived) =>
                recorded == rec.result && ComesTo(rec, derived) && recorded != Some(derived)
              case AssertionFailed(name) => exists a :: a in rec.asserts && !a.ok && a.name == name
              case Forced => rec.forced
              case NothingAsserted => rec.asserts == []
              case _ => false
  {
    var failed := FailedOf(rec.asserts);
    FailedAreFiltered(rec.asserts);
    FailuresNamed(failed);
    if p.ResultDisagrees? {
      DerivedExactly(rec, p.derived);
    }
    FailureIsMade(failed, p);
  }

  lemma FailureIsMade(failed: seq<Assertion>, p: Problem)
    ensures p in FailureProblems(failed) <==> p.AssertionFailed? && exists a :: a in failed && a.name == p.name
  {
    FailuresNamed(failed);
    if p.AssertionFailed? && exists a :: a in failed && a.name == p.name {
      var a :| a in failed && a.name == p.name;
      var i :| 0 <= i < |failed| && failed[i] == a;
      assert FailureProblems(failed)[i] == p;
    }
  }

  lemma UnheardIsMade(asserts: seq<Assertion>, spoken: seq<Spoken>, p: Problem)
    ensures p in SerialProblems(asserts, spoken) <==>
              p.NotOnSerial? && exists a :: a in asserts && Unheard(a, spoken) && a.name == p.name && a.ok == p.pass
  {
    UnheardNamed(asserts, spoken);
    var unheard := Filter((a: Assertion) => Unheard(a, spoken), asserts);
    if p.NotOnSerial? && exists a :: a in asserts && Unheard(a, spoken) && a.name == p.name && a.ok == p.pass {
      var a :| a in asserts && Unheard(a, spoken) && a.name == p.name && a.ok == p.pass;
      var i :| 0 <= i < |unheard| && unheard[i] == a;
      assert SerialProblems(asserts, spoken)[i] == p;
    }
  }

  /** Of what the serial line holds against it. */
  lemma ChannelObjections(rec: Record, spoken: seq<Spoken>, summary: Option<Summary>, p: Problem)
    ensures p in ChannelProblems(rec, spoken, summary) <==>
              match p
              case NotOnSerial(name, pass) =>
                exists a :: a in rec.asserts && a.name == name && a.ok == pass
                            && (name.None? || Spoken(pass, name.value) !in spoken)
              case CountDiffers(heard, recorded) =>
                heard == |spoken| && recorded == |rec.asserts| && heard != recorded
              case SummaryDisagrees(t) =>
                && summary == Some(t)
                && (rec.result != Some(t.verdict) || t.count != |rec.asserts|
                    || t.failed != |Filter((a: Assertion) => !a.ok, rec.asserts)|)
              case NoSummary => summary.None?
              case _ => false
  {
    UnheardIsMade(rec.asserts, spoken, p);
    FailedAreFiltered(rec.asserts);
  }

  lemma MissingIsMade(required: seq<string>, asserts: seq<Assertion>, p: Problem)
    ensures p in RequiredProblems(required, asserts) <==>
              p.RequiredMissing? && p.fragment in required && Missing(p.fragment, asserts)
  {
    MissingNamed(required, asserts);
    var missing := Filter((f: string) => Missing(f, asserts), required);
    if p.RequiredMissing? && p.fragment in required && Missing(p.fragment, asserts) {
      var i :| 0 <= i < |missing| && missing[i] == p.fragment;
      assert RequiredProblems(required, asserts)[i] == p;
    }
  }

  /** And of the judge's own rules; what its reading of the logs and of the kept profile turned up is passed on, the
      profile for the two scenarios that keep one. */
  lemma RuleObjections(sid: ScenarioId, rec: Record, expected: Artefact, required: seq<string>, p: Problem)
    ensures p in RuleProblems(sid, rec, expected, required) <==>
              || (p.RequiredMissing? && p.fragment in required && Missing(p.fragment, rec.asserts))
              || (p == WrongArtefact(rec.artefact)
                  && (rec.artefact.file != expected.file || rec.artefact.sha256 != expected.sha256))
              || p in rec.logs
              || ((sid == Numbered(12) || sid == Numbered(13)) && p in rec.profile)
  {
    MissingIsMade(required, rec.asserts, p);
  }

  function OneIf(b: bool): nat { if b then 1 else 0 }

  /** None is made twice: as many objections as there are reasons. */
  lemma ObjectionsCounted(sid: ScenarioId, rec: Record, spoken: seq<Spoken>, summary: Option<Summary>,
                          expected: Artefact, required: seq<string>)
    ensures |RecordProblems(rec)|
         == OneIf(rec.result.None? || !ComesTo(rec, rec.result.value)) + |Filter((a: Assertion) => !a.ok, rec.asserts)|
            + OneIf(rec.forced) + OneIf(rec.asserts == [])
    ensures |ChannelProblems(rec, spoken, summary)|
         == |Filter((a: Assertion) => Unheard(a, spoken), rec.asserts)| + OneIf(|spoken| != |rec.asserts|)
            + OneIf(summary.None? || SummaryDisagrees(summary.value) in ChannelProblems(rec, spoken, summary))
    ensures |RuleProblems(sid, rec, expected, required)|
         == |Filter((f: string) => Missing(f, rec.asserts), required)| + OneIf(rec.artefact != expected) + |rec.logs|
            + (if sid == Numbered(12) || sid == Numbered(13) then |rec.profile| else 0)
  {
    FailedAreFiltered(rec.asserts);
    if rec.result.Some? {
      DerivedExactly(rec, rec.result.value);
    }
    UnheardNamed(rec.asserts, spoken);
    MissingNamed(required, rec.asserts);
    if summary.Some? {
      ChannelObjections(rec, spoken, summary, SummaryDisagrees(summary.value));
      FailedAreFiltered(rec.asserts);
    }
  }

  /** The judgement: objections in the order record, serial line, rules; PASS for none of them and checks that come
      to PASS, BLOCKED for checks that come to it, FAIL for everything else. */
  lemma JudgedExactly(sid: ScenarioId, rec: Record, spoken: seq<Spoken>, summary: Option<Summary>,
                      expected: Artefact, required: seq<string>)
    ensures var judged := Judge(sid, rec, spoken, summary, expected, required);
            && (judged.result == Pass <==> judged.problems == [] && ComesTo(rec, Pass))
            && (judged.result == Blocked <==> ComesTo(rec, Blocked))
            && (judged.result == Fail <==> !ComesTo(rec, Blocked) && (judged.problems != [] || !ComesTo(rec, Pass)))
            && forall p :: p in judged.problems <==>
                 || p in RecordProblems(rec) || p in ChannelProblems(rec, spoken, summary)
                 || p in RuleProblems(sid, rec, expected, required)
  {
    DerivedExactly(rec, Pass);
    DerivedExactly(rec, Blocked);
    NoneFailed(rec.asserts);
  }
}
